/**
 The observed-remove set.  A key holds the tags of the adds that put it there;
 `remove` forgets the key together with its tags and keeps no tombstone.
 Merged tag lists come out of a hash map in no particular order, so states are
 compared by the map from ids to tags under every key.
 */
module OrSets {
  import opened VectorClocks
  import opened Gossips

  datatype Tag = Tag(id: string, node: string, clock: Clock)

  datatype Element<T> = Element(value: T, tags: seq<Tag>)

  type Elements<T> = map<string, Element<T>>

  type TagMap = map<string, Tag>

  type View = map<string, TagMap>

  predicate Distinct(tags: seq<Tag>) {
    forall i, j :: 0 <= i < j < |tags| ==> tags[i].id != tags[j].id
  }

  /** The tags by id; a later tag replaces an earlier one of the same id. */
  function TagMapOf(tags: seq<Tag>): TagMap {
    if tags == [] then map[]
    else
      var last := tags[|tags| - 1];
      TagMapOf(tags[..|tags| - 1])[last.id := last]
  }

  /** Shared ids keep the tag of the first map, with the clocks merged. */
  function MergeMaps(a: TagMap, b: TagMap): TagMap {
    map id | id in a.Keys + b.Keys ::
      if id !in b then a[id]
      else if id !in a then b[id]
      else a[id].(clock := Merge(a[id].clock, b[id].clock))
  }

  function ViewOf<T>(m: Elements<T>): View {
    map k | k in m :: TagMapOf(m[k].tags)
  }

  predicate Has(v: View, key: string) {
    key in v && v[key] != map[]
  }

  // ---------- tag lists ----------

  lemma {:induction false} TagMapSnoc(tags: seq<Tag>, t: Tag)
    ensures TagMapOf(tags + [t]) == TagMapOf(tags)[t.id := t]
  {
    assert (tags + [t])[..|tags|] == tags;
  }

  lemma {:induction false} TagMapContents(tags: seq<Tag>)
    ensures forall id :: id in TagMapOf(tags) ==> TagMapOf(tags)[id] in tags && TagMapOf(tags)[id].id == id
    ensures forall t :: t in tags ==> t.id in TagMapOf(tags)
    ensures TagMapOf(tags) == map[] <==> tags == []
  {
    if tags == [] {
    } else {
      var init, last := tags[..|tags| - 1], tags[|tags| - 1];
      TagMapContents(init);
      assert tags == init + [last];
      assert last.id in TagMapOf(tags);
    }
  }

  /** A list without repeated ids and its map hold the same tags. */
  lemma {:induction false} TagMapExact(tags: seq<Tag>, t: Tag)
    requires Distinct(tags)
    ensures t in tags <==> t.id in TagMapOf(tags) && TagMapOf(tags)[t.id] == t
  {
    if tags == [] {
    } else {
      var init, last := tags[..|tags| - 1], tags[|tags| - 1];
      TagMapExact(init, t);
      assert tags == init + [last];
      if t in init {
        var i :| 0 <= i < |init| && init[i] == t;
        assert tags[i].id != tags[|init|].id;
      }
    }
  }

  function AbsorbOne(tagMap: TagMap, tag: Tag): TagMap {
    tagMap[tag.id := if tag.id in tagMap
                     then tagMap[tag.id].(clock := Merge(tagMap[tag.id].clock, tag.clock)) else tag]
  }

  method AbsorbTag(tagMap: TagMap, tag: Tag) returns (r: TagMap)
    ensures r == AbsorbOne(tagMap, tag)
  {
    if tag.id in tagMap {
      var existing := tagMap[tag.id];
      var clock := MergeClocks(existing.clock, tag.clock);
      r := tagMap[tag.id := existing.(clock := clock)];
    } else {
      r := tagMap[tag.id := tag];
    }
  }

  /** Absorbing one more tag of a new id is merging with one more entry. */
  lemma {:induction false} AbsorbStep(start: TagMap, m: TagMap, tag: Tag)
    requires tag.id !in m
    ensures AbsorbOne(MergeMaps(start, m), tag) == MergeMaps(start, m[tag.id := tag])
  {
    var l, r := AbsorbOne(MergeMaps(start, m), tag), MergeMaps(start, m[tag.id := tag]);
    assert l.Keys == r.Keys;
    forall id | id in l ensures l[id] == r[id] {
    }
  }

  /** What the second loop of `merge_tags` makes of a map. */
  function AbsorbAll(start: TagMap, tags: seq<Tag>): TagMap {
    if tags == [] then start else AbsorbOne(AbsorbAll(start, tags[..|tags| - 1]), tags[|tags| - 1])
  }

  lemma {:induction false} AbsorbAllIsMerge(start: TagMap, tags: seq<Tag>)
    requires Distinct(tags)
    ensures AbsorbAll(start, tags) == MergeMaps(start, TagMapOf(tags))
  {
    if tags == [] {
      assert MergeMaps(start, map[]) == start;
    } else {
      var init, last := tags[..|tags| - 1], tags[|tags| - 1];
      AbsorbAllIsMerge(start, init);
      NewId(tags, |init|);
      AbsorbStep(start, TagMapOf(init), last);
    }
  }

  lemma {:induction false} NewId(tags: seq<Tag>, i: nat)
    requires Distinct(tags) && i < |tags|
    ensures tags[i].id !in TagMapOf(tags[..i])
  {
    TagMapContents(tags[..i]);
  }

  /** `into_values().collect()`: the entries of the map, in some order. */
  method TagList(tagMap: TagMap) returns (list: seq<Tag>)
    requires forall id :: id in tagMap ==> tagMap[id].id == id
    ensures Distinct(list) && TagMapOf(list) == tagMap
  {
    list := [];
    var todo := tagMap.Keys;
    while todo != {}
      invariant todo <= tagMap.Keys
      invariant TagMapOf(list) == tagMap - todo
      invariant Distinct(list)
      decreases todo
    {
      var id :| id in todo;
      TagMapContents(list);
      TagMapSnoc(list, tagMap[id]);
      assert (tagMap - todo)[id := tagMap[id]] == tagMap - (todo - {id});
      assert forall t :: t in list ==> t.id != id;
      list := list + [tagMap[id]];
      todo := todo - {id};
    }
  }

  /** No id twice, and under every id the tag of its list, or of both with the clocks merged. */
  method MergeTags(tags1: seq<Tag>, tags2: seq<Tag>) returns (merged: seq<Tag>)
    ensures Distinct(merged)
    ensures TagMapOf(merged) == AbsorbAll(TagMapOf(tags1), tags2)
    ensures Distinct(tags2) ==> TagMapOf(merged) == MergeMaps(TagMapOf(tags1), TagMapOf(tags2))
  {
    var tagMap := FirstTags(tags1);
    TagMapContents(tags1);
    for i := 0 to |tags2|
      invariant tagMap == AbsorbAll(TagMapOf(tags1), tags2[..i])
      invariant forall id :: id in tagMap ==> tagMap[id].id == id
    {
      assert tags2[..i + 1][..i] == tags2[..i];
      tagMap := AbsorbTag(tagMap, tags2[i]);
    }
    assert tags2[..|tags2|] == tags2;
    if Distinct(tags2) {
      AbsorbAllIsMerge(TagMapOf(tags1), tags2);
    }
    merged := TagList(tagMap);
  }

  /** The first loop of `merge_tags`. */
  method FirstTags(tags: seq<Tag>) returns (tagMap: TagMap)
    ensures tagMap == TagMapOf(tags)
  {
    tagMap := map[];
    for i := 0 to |tags|
      invariant tagMap == TagMapOf(tags[..i])
    {
      assert tags[..i + 1][..i] == tags[..i];
      tagMap := tagMap[tags[i].id := tags[i]];
    }
    assert tags[..|tags|] == tags;
  }

  // ---------- the set ----------

  function Added<T>(m: Elements<T>, key: string, value: T, tag: Tag): Elements<T> {
    m[key := if key in m then m[key].(tags := m[key].tags + [tag]) else Element(value, [tag])]
  }

  /** An add puts its tag beside those the key already has, and touches nothing else. */
  lemma {:induction false} AddedShows<T>(m: Elements<T>, key: string, value: T, tag: Tag)
    ensures
      var v := ViewOf(m);
      ViewOf(Added(m, key, value, tag)) == v[key := (if key in v then v[key] else map[])[tag.id := tag]]
    ensures Added(m, key, value, tag)[key].value == if key in m then m[key].value else value
  {
    TagMapSnoc(if key in m then m[key].tags else [], tag);
    assert [] + [tag] == [tag];
    ViewUpdated(m, key, Added(m, key, value, tag)[key]);
  }

  lemma {:induction false} ViewUpdated<T>(m: Elements<T>, key: string, e: Element<T>)
    ensures ViewOf(m[key := e]) == ViewOf(m)[key := TagMapOf(e.tags)]
  {
    assert ViewOf(m[key := e]).Keys == m.Keys + {key};
  }

  /** What a merge of `b` into `a` leaves under one key; only the order of a merged list is open. */
  ghost predicate MergedAt<T>(a: Elements<T>, b: Elements<T>, c: Elements<T>, k: string) {
    if k !in b then (k in c <==> k in a) && (k in c ==> c[k] == a[k])
    else if k !in a then k in c && c[k] == b[k]
    else
      var tags := MergeMaps(TagMapOf(a[k].tags), TagMapOf(b[k].tags));
      if tags == map[] then k !in c
      else k in c && c[k].value == a[k].value && Distinct(c[k].tags) && TagMapOf(c[k].tags) == tags
  }

  ghost predicate Merged<T>(a: Elements<T>, b: Elements<T>, c: Elements<T>) {
    forall k :: MergedAt(a, b, c, k)
  }

  predicate AllDistinct<T>(m: Elements<T>) {
    forall k :: k in m ==> Distinct(m[k].tags)
  }

  class OrSet<T(==)> {
    const keyOf: T -> string
    var elements: Elements<T>

    /** No element repeats a tag id. */
    ghost predicate Valid()
      reads this
    {
      AllDistinct(elements)
    }

    constructor (keyOf: T -> string)
      ensures Valid() && this.keyOf == keyOf && elements == map[]
    {
      this.keyOf := keyOf;
      elements := map[];
    }

    /** `id` stands for the generated `node-time-uuid` string, unused so far. */
    method Add(value: T, node: string, id: string)
      requires Valid()
      requires keyOf(value) in elements ==> id !in TagMapOf(elements[keyOf(value)].tags)
      modifies this
      ensures Valid()
      ensures elements == Added(old(elements), keyOf(value), value, Tag(id, node, map[node := 1]))
    {
      var key, tag := keyOf(value), Tag(id, node, map[node := 1]);
      if key in elements {
        var element := elements[key];
        TagMapContents(element.tags);
        elements := elements[key := element.(tags := element.tags + [tag])];
      } else {
        elements := elements[key := Element(value, [tag])];
      }
    }

    method Remove(value: T)
      requires Valid()
      modifies this
      ensures Valid()
      ensures elements == old(elements) - {keyOf(value)}
    {
      elements := elements - {keyOf(value)};
    }

    method Clear()
      modifies this
      ensures Valid() && elements == map[]
    {
      elements := map[];
    }

    method HasValue(value: T) returns (r: bool)
      ensures r <==> Has(ViewOf(elements), keyOf(value))
    {
      var key := keyOf(value);
      if key in elements {
        TagMapContents(elements[key].tags);
        r := elements[key].tags != [];
      } else {
        r := false;
      }
    }

    method Size() returns (n: nat)
      ensures n == |set k | k in elements && Has(ViewOf(elements), k)|
    {
      n := 0;
      ghost var v := ViewOf(elements);
      ghost var counted: set<string> := {};
      var todo := elements.Keys;
      while todo != {}
        invariant todo <= elements.Keys
        invariant counted <= elements.Keys - todo
        invariant forall k :: k in elements.Keys - todo ==> (k in counted <==> Has(v, k))
        invariant n == |counted|
        decreases todo
      {
        var k :| k in todo;
        TagMapContents(elements[k].tags);
        if elements[k].tags != [] {
          n, counted := n + 1, counted + {k};
        }
        todo := todo - {k};
      }
      assert counted == set k | k in elements && Has(v, k);
    }

    /** One turn of the loop in `merge`. */
    method MergeKey(k: string, theirs: Element<T>)
      requires Distinct(theirs.tags)
      modifies this
      ensures MergedAt(old(elements), map[k := theirs], elements, k)
      ensures forall j :: j != k ==> MergedAt(old(elements), map[], elements, j)
    {
      if k in elements {
        var merged := MergeTags(elements[k].tags, theirs.tags);
        TagMapContents(merged);
        if merged == [] {
          elements := elements - {k};
        } else {
          elements := elements[k := elements[k].(tags := merged)];
        }
      } else {
        elements := elements[k := theirs];
      }
    }

    method Merge(other: OrSet<T>)
      requires Valid() && other.Valid() && other != this && other.keyOf == keyOf
      modifies this
      ensures Valid()
      ensures Merged(old(elements), other.elements, elements)
    {
      var theirs := other.elements;
      var todo := theirs.Keys;
      while todo != {}
        invariant todo <= theirs.Keys
        invariant Merging(old(elements), theirs, elements, todo)
        decreases todo
      {
        var k :| k in todo;
        ghost var before := elements;
        MergeKey(k, theirs[k]);
        MergingStep(old(elements), theirs, before, elements, todo, k);
        todo := todo - {k};
      }
      MergeKeepsDistinct(old(elements), theirs, elements);
    }
  }

  /** The loop of `merge` has dealt with every key of `b` outside `todo`, and touched no other. */
  ghost predicate Merging<T>(a: Elements<T>, b: Elements<T>, c: Elements<T>, todo: set<string>) {
    && (forall k :: k !in todo ==> MergedAt(a, b, c, k))
    && (forall k :: k in todo ==> MergedAt(a, map[], c, k))
  }

  lemma {:induction false} MergingStep<T>(a: Elements<T>, b: Elements<T>, c: Elements<T>, d: Elements<T>,
                                          todo: set<string>, k: string)
    requires Merging(a, b, c, todo) && k in todo && k in b
    requires MergedAt(c, map[k := b[k]], d, k) && forall j :: j != k ==> MergedAt(c, map[], d, j)
    ensures Merging(a, b, d, todo - {k})
  {
    assert MergedAt(a, map[], c, k);
    forall j | j != k ensures (j in d <==> j in c) && (j in d ==> d[j] == c[j]) {
      assert MergedAt(c, map[], d, j);
    }
    forall j | j !in todo ensures MergedAt(a, b, d, j) {
      assert MergedAt(a, b, c, j);
    }
    forall j | j in todo && j != k ensures MergedAt(a, map[], d, j) {
      assert MergedAt(a, map[], c, j);
    }
  }

  lemma {:induction false} MergeKeepsDistinct<T>(a: Elements<T>, b: Elements<T>, c: Elements<T>)
    requires AllDistinct(a) && AllDistinct(b) && Merged(a, b, c)
    ensures AllDistinct(c)
  {
    forall k | k in c ensures Distinct(c[k].tags) {
      assert MergedAt(a, b, c, k);
    }
  }

  // ---------- laws ----------

  /** A key drops out only when both sides hold it and neither has a tag. */
  function MergeView(v: View, w: View): View {
    map k | k in v.Keys + w.Keys && !(k in v && k in w && v[k] == map[] && w[k] == map[]) ::
      if k !in w then v[k] else if k !in v then w[k] else MergeMaps(v[k], w[k])
  }

  lemma {:induction false} SameView(v: View, w: View)
    requires forall k :: k in v <==> k in w
    requires forall k :: k in v ==> v[k] == w[k]
    ensures v == w
  {
  }

  lemma {:induction false} EmptyMerge(a: TagMap, b: TagMap)
    ensures MergeMaps(a, b).Keys == a.Keys + b.Keys
    ensures MergeMaps(a, b) == map[] <==> a == map[] && b == map[]
  {
    if a != map[] {
      var id :| id in a;
      assert id in MergeMaps(a, b);
    } else if b != map[] {
      var id :| id in b;
      assert id in MergeMaps(a, b);
    }
  }

  /** Whatever the order of its lists, a merged set shows the merge of the two views. */
  lemma {:induction false} MergedShows<T>(a: Elements<T>, b: Elements<T>, c: Elements<T>)
    requires Merged(a, b, c)
    ensures ViewOf(c) == MergeView(ViewOf(a), ViewOf(b))
  {
    var v, w := ViewOf(a), ViewOf(b);
    forall k
      ensures k in c <==> k in MergeView(v, w)
      ensures k in c ==> TagMapOf(c[k].tags) == MergeView(v, w)[k]
    {
      assert MergedAt(a, b, c, k);
      if k in a && k in b {
        EmptyMerge(v[k], w[k]);
      }
    }
    SameView(ViewOf(c), MergeView(v, w));
  }

  predicate NonEmpty(v: View) {
    forall k :: k in v ==> v[k] != map[]
  }

  /** A merged set has an element exactly when one of its inputs has it. */
  lemma {:induction false} MergeHasIff(v: View, w: View, key: string)
    ensures Has(MergeView(v, w), key) <==> Has(v, key) || Has(w, key)
  {
    if key in v && key in w {
      EmptyMerge(v[key], w[key]);
    }
  }

  /** Without empty tag lists the removing branch of `merge` is dead. */
  lemma {:induction false} MergeNeverDrops(v: View, w: View)
    requires NonEmpty(v) && NonEmpty(w)
    ensures MergeView(v, w).Keys == v.Keys + w.Keys && NonEmpty(MergeView(v, w))
  {
    forall k | k in MergeView(v, w) ensures MergeView(v, w)[k] != map[] {
      MergeHasIff(v, w, k);
    }
  }

  predicate KeyedMap(a: TagMap) {
    forall id :: id in a ==> a[id].id == id
  }

  ghost predicate Agree(a: TagMap, b: TagMap) {
    forall id :: id in a && id in b ==> a[id].node == b[id].node
  }

  lemma {:induction false} MapsCommuteIff(a: TagMap, b: TagMap)
    requires KeyedMap(a) && KeyedMap(b)
    ensures MergeMaps(a, b) == MergeMaps(b, a) <==> Agree(a, b)
  {
    var l, r := MergeMaps(a, b), MergeMaps(b, a);
    assert l.Keys == r.Keys;
    forall id | id in a && id in b ensures l[id] == r[id] <==> a[id].node == b[id].node {
      ClockLaws(a[id].clock, b[id].clock, a[id].clock);
    }
    if l == r {
      forall id | id in a && id in b ensures a[id].node == b[id].node {
        assert l[id] == r[id];
      }
    }
  }

  /** `merge` commutes exactly when no id stands for the adds of two nodes, which the ids themselves exclude. */
  lemma {:induction false} MergeCommutesIff(v: View, w: View)
    requires (forall k :: k in v ==> KeyedMap(v[k])) && forall k :: k in w ==> KeyedMap(w[k])
    ensures MergeView(v, w) == MergeView(w, v) <==> forall k :: k in v && k in w ==> Agree(v[k], w[k])
  {
    var l, r := MergeView(v, w), MergeView(w, v);
    forall k | k in v && k in w
      ensures MergeMaps(v[k], w[k]) == MergeMaps(w[k], v[k]) <==> Agree(v[k], w[k])
    {
      MapsCommuteIff(v[k], w[k]);
    }
    if forall k :: k in v && k in w ==> Agree(v[k], w[k]) {
      SameView(l, r);
    } else {
      var k :| k in v && k in w && !Agree(v[k], w[k]);
      assert k in l && l[k] != r[k];
    }
  }

  lemma {:induction false} MapIdempotent(a: TagMap)
    ensures MergeMaps(a, a) == a
  {
    forall id | id in a ensures MergeMaps(a, a)[id] == a[id] {
      ClockLaws(a[id].clock, a[id].clock, a[id].clock);
    }
  }

  lemma {:induction false} MergeIdempotentIff(v: View)
    ensures MergeView(v, v) == v <==> NonEmpty(v)
  {
    forall k | k in v ensures MergeMaps(v[k], v[k]) == v[k] {
      MapIdempotent(v[k]);
    }
    if NonEmpty(v) {
      SameView(MergeView(v, v), v);
    } else {
      var k :| k in v && v[k] == map[];
      assert k !in MergeView(v, v);
    }
  }

  lemma {:induction false} MapsAssociate(a: TagMap, b: TagMap, c: TagMap)
    ensures MergeMaps(MergeMaps(a, b), c) == MergeMaps(a, MergeMaps(b, c))
  {
    var l, r := MergeMaps(MergeMaps(a, b), c), MergeMaps(a, MergeMaps(b, c));
    assert l.Keys == r.Keys;
    forall id | id in l ensures l[id] == r[id] {
      if id in a && id in b && id in c {
        ClockLaws(a[id].clock, b[id].clock, c[id].clock);
      }
    }
  }

  /** `merge` associates on all states, also on those with empty tag lists. */
  lemma {:induction false} MergeAssociates(u: View, v: View, w: View)
    ensures MergeView(MergeView(u, v), w) == MergeView(u, MergeView(v, w))
  {
    var l, r := MergeView(MergeView(u, v), w), MergeView(u, MergeView(v, w));
    forall k ensures At(l, k) == At(r, k) {
      AtMerge(u, v, k);
      AtMerge(v, w, k);
      AtMerge(MergeView(u, v), w, k);
      AtMerge(u, MergeView(v, w), k);
      SlotsAssociate(At(u, k), At(v, k), At(w, k));
    }
    forall k ensures (k in l <==> k in r) && (k in l ==> l[k] == r[k]) {
      assert At(l, k) == At(r, k);
    }
    SameView(l, r);
  }

  /** What a view holds under one key. */
  datatype Slot = Absent | Present(tags: TagMap)

  function At(v: View, k: string): Slot {
    if k in v then Present(v[k]) else Absent
  }

  function MergeSlots(a: Slot, b: Slot): Slot {
    if b.Absent? then a
    else if a.Absent? then b
    else if a.tags == map[] && b.tags == map[] then Absent
    else Present(MergeMaps(a.tags, b.tags))
  }

  lemma {:induction false} AtMerge(v: View, w: View, k: string)
    ensures At(MergeView(v, w), k) == MergeSlots(At(v, k), At(w, k))
  {
  }

  lemma {:induction false} SlotsAssociate(a: Slot, b: Slot, c: Slot)
    ensures MergeSlots(MergeSlots(a, b), c) == MergeSlots(a, MergeSlots(b, c))
  {
    if a.Present? && b.Present? && c.Present? {
      EmptyMerge(a.tags, b.tags);
      EmptyMerge(b.tags, c.tags);
      MapsAssociate(a.tags, b.tags, c.tags);
      WithEmpty(a.tags);
      WithEmpty(c.tags);
    }
  }

  lemma {:induction false} WithEmpty(a: TagMap)
    ensures MergeMaps(a, map[]) == a && MergeMaps(map[], a) == a
  {
  }

  // ---------- runs of any number of replicas ----------

  /** The tag made for one add, and the key it was made for. */
  datatype Issue = Issue(key: string, tag: Tag)

  datatype System<T> = System(replicas: seq<Elements<T>>, copies: seq<Elements<T>>, issued: map<string, Issue>)

  datatype Action<T> =
    | Add(at: nat, key: string, value: T, node: string, id: string)
    | Remove(at: nat, key: string)
    | Clear(at: nat)
    | Pass(exchange: Exchange)

  ghost predicate NextExchange<T>(s: System<T>, e: Exchange, t: System<T>) {
    if e.at >= |s.replicas| then t == s
    else
      match e
      case Send(i) => t == s.(copies := s.copies + [s.replicas[i]])
      case Receive(i, c) =>
        if c >= |s.copies| then t == s
        else
          && i < |t.replicas| && Merged(s.replicas[i], s.copies[c], t.replicas[i])
          && t == s.(replicas := s.replicas[i := t.replicas[i]])
  }

  /**
   One step.  Ids carry a random UUID, so adding under an id used before is not
   a step; nor is naming a replica or a copy that does not exist.
   */
  ghost predicate Next<T>(s: System<T>, a: Action<T>, t: System<T>) {
    match a
    case Add(i, key, value, node, id) =>
      var tag := Tag(id, node, map[node := 1]);
      if i >= |s.replicas| || id in s.issued then t == s
      else t == s.(replicas := s.replicas[i := Added(s.replicas[i], key, value, tag)],
                   issued := s.issued[id := Issue(key, tag)])
    case Remove(i, key) =>
      if i >= |s.replicas| then t == s else t == s.(replicas := s.replicas[i := s.replicas[i] - {key}])
    case Clear(i) => if i >= |s.replicas| then t == s else t == s.(replicas := s.replicas[i := map[]])
    case Pass(e) => NextExchange(s, e, t)
  }

  function Fresh<T>(n: nat): System<T> {
    System(seq(n, _ => map[]), [], map[])
  }

  /** The states of a run, in whatever order merged lists come out. */
  ghost predicate Behaviour<T>(n: nat, actions: seq<Action<T>>, states: seq<System<T>>) {
    && |states| == |actions| + 1 && states[0] == Fresh<T>(n)
    && forall i :: 0 <= i < |actions| ==> Next(states[i], actions[i], states[i + 1])
  }

  ghost predicate HonestTags(tags: seq<Tag>, key: string, issued: map<string, Issue>) {
    && tags != [] && Distinct(tags)
    && forall t :: t in tags ==> t.id in issued && issued[t.id] == Issue(key, t)
  }

  /** Every stored key has a tag, no list repeats an id, and every tag is as it was issued, for this key. */
  ghost predicate Honest<T>(m: Elements<T>, issued: map<string, Issue>) {
    forall k :: k in m ==> HonestTags(m[k].tags, k, issued)
  }

  ghost predicate AllHonest<T>(s: System<T>) {
    && (forall i :: 0 <= i < |s.replicas| ==> Honest(s.replicas[i], s.issued))
    && (forall c :: 0 <= c < |s.copies| ==> Honest(s.copies[c], s.issued))
  }

  lemma {:induction false} AddKeepsHonest<T>(m: Elements<T>, issued: map<string, Issue>, key: string, value: T,
                                             tag: Tag)
    requires Honest(m, issued) && tag.id !in issued
    ensures Honest(Added(m, key, value, tag), issued[tag.id := Issue(key, tag)])
  {
    var after, more := Added(m, key, value, tag), issued[tag.id := Issue(key, tag)];
    forall k | k in after ensures HonestTags(after[k].tags, k, more) {
      if k in m {
        assert HonestTags(m[k].tags, k, issued);
      }
    }
  }

  lemma {:induction false} IssueKeepsHonest<T>(m: Elements<T>, issued: map<string, Issue>, id: string, issue: Issue)
    requires Honest(m, issued) && id !in issued
    ensures Honest(m, issued[id := issue])
  {
    forall k | k in m ensures HonestTags(m[k].tags, k, issued[id := issue]) {
      assert HonestTags(m[k].tags, k, issued);
    }
  }

  /** Tags issued once agree, clock and all, wherever they meet. */
  lemma {:induction false} MergedTagsHonest(a: seq<Tag>, b: seq<Tag>, c: seq<Tag>, key: string, issued: map<string,
                                            Issue>)
    requires HonestTags(a, key, issued) && HonestTags(b, key, issued)
    requires Distinct(c) && TagMapOf(c) == MergeMaps(TagMapOf(a), TagMapOf(b)) && c != []
    ensures HonestTags(c, key, issued)
  {
    TagMapContents(a);
    TagMapContents(b);
    forall t | t in c ensures t.id in issued && issued[t.id] == Issue(key, t) {
      TagMapExact(c, t);
      ClockLaws(issued[t.id].tag.clock, issued[t.id].tag.clock, issued[t.id].tag.clock);
    }
  }

  lemma {:induction false} MergeKeepsHonest<T>(a: Elements<T>, b: Elements<T>, c: Elements<T>, issued: map<string,
                                               Issue>)
    requires Honest(a, issued) && Honest(b, issued) && Merged(a, b, c)
    ensures Honest(c, issued)
  {
    forall k | k in c ensures HonestTags(c[k].tags, k, issued) {
      assert MergedAt(a, b, c, k);
      if k in a && k in b {
        TagMapContents(c[k].tags);
        MergedTagsHonest(a[k].tags, b[k].tags, c[k].tags, k, issued);
      }
    }
  }

  lemma {:induction false} ExchangeKeepsHonest<T>(s: System<T>, e: Exchange, t: System<T>)
    requires AllHonest(s) && NextExchange(s, e, t)
    ensures AllHonest(t) && t.issued == s.issued
  {
    if e.Receive? && e.at < |s.replicas| && e.copy < |s.copies| {
      MergeKeepsHonest(s.replicas[e.at], s.copies[e.copy], t.replicas[e.at], s.issued);
    }
  }

  lemma {:induction false} NextKeepsHonest<T>(s: System<T>, a: Action<T>, t: System<T>)
    requires AllHonest(s) && Next(s, a, t)
    ensures AllHonest(t)
  {
    match a
    case Add(i, key, value, node, id) =>
      if i < |s.replicas| && id !in s.issued {
        IssueKeepsAll(s, id, Issue(key, Tag(id, node, map[node := 1])));
        AddKeepsHonest(s.replicas[i], s.issued, key, value, Tag(id, node, map[node := 1]));
      }
    case Remove(i, key) =>
    case Clear(i) =>
    case Pass(e) => ExchangeKeepsHonest(s, e, t);
  }

  lemma {:induction false} IssueKeepsAll<T>(s: System<T>, id: string, issue: Issue)
    requires AllHonest(s) && id !in s.issued
    ensures AllHonest(s.(issued := s.issued[id := issue]))
  {
    forall i | 0 <= i < |s.replicas| ensures Honest(s.replicas[i], s.issued[id := issue]) {
      IssueKeepsHonest(s.replicas[i], s.issued, id, issue);
    }
    forall c | 0 <= c < |s.copies| ensures Honest(s.copies[c], s.issued[id := issue]) {
      IssueKeepsHonest(s.copies[c], s.issued, id, issue);
    }
  }

  /** In every state of every run every stored list is non-empty and without repeats, and its tags are as issued. */
  lemma {:induction false} RunHonest<T>(n: nat, actions: seq<Action<T>>, states: seq<System<T>>, i: nat)
    requires Behaviour(n, actions, states) && i < |states|
    ensures AllHonest(states[i])
  {
    if i == 0 {
    } else {
      RunHonest(n, actions, states, i - 1);
      NextKeepsHonest(states[i - 1], actions[i - 1], states[i]);
    }
  }

  /** What the laws need to know of honest states. */
  lemma {:induction false} HonestView<T>(m: Elements<T>, issued: map<string, Issue>)
    requires Honest(m, issued)
    ensures NonEmpty(ViewOf(m)) && AsIssued(ViewOf(m), issued)
  {
    forall k | k in m
      ensures TagMapOf(m[k].tags) != map[]
      ensures TagsAsIssued(TagMapOf(m[k].tags), issued)
    {
      assert HonestTags(m[k].tags, k, issued);
      TagMapContents(m[k].tags);
    }
  }

  function TagsAt(v: View, key: string): TagMap {
    if key in v then v[key] else map[]
  }

  /** Tags that agree are merged by plain union. */
  lemma {:induction false} UnionOfAgreeing(a: TagMap, b: TagMap)
    requires forall id :: id in a && id in b ==> a[id] == b[id]
    ensures MergeMaps(a, b) == a + b
  {
    forall id | id in a && id in b ensures MergeMaps(a, b)[id] == b[id] {
      ClockLaws(a[id].clock, a[id].clock, a[id].clock);
    }
  }

  /** Between any replicas of any run `merge` is the union of the tags under every key, and satisfies its laws. */
  lemma {:induction false} ReachableMergeLaws<T>(n: nat, actions: seq<Action<T>>, states: seq<System<T>>, s: nat,
                                                 i: nat, j: nat, k: nat)
    requires Behaviour(n, actions, states) && s < |states|
    requires i < |states[s].replicas| && j < |states[s].replicas| && k < |states[s].replicas|
    ensures
      var rs := states[s].replicas;
      var u, v, w := ViewOf(rs[i]), ViewOf(rs[j]), ViewOf(rs[k]);
      && MergeView(u, v).Keys == u.Keys + v.Keys
      && (forall key :: key in MergeView(u, v) ==> MergeView(u, v)[key] == TagsAt(u, key) + TagsAt(v, key))
      && MergeView(u, v) == MergeView(v, u)
      && MergeView(MergeView(u, v), w) == MergeView(u, MergeView(v, w))
      && MergeView(u, u) == u
  {
    var rs, issued := states[s].replicas, states[s].issued;
    RunHonest(n, actions, states, s);
    HonestView(rs[i], issued);
    HonestView(rs[j], issued);
    AgreeingViews(ViewOf(rs[i]), ViewOf(rs[j]), issued);
    MergeAssociates(ViewOf(rs[i]), ViewOf(rs[j]), ViewOf(rs[k]));
    MergeIdempotentIff(ViewOf(rs[i]));
  }

  ghost predicate TagsAsIssued(a: TagMap, issued: map<string, Issue>) {
    forall id :: id in a ==> id in issued && a[id] == issued[id].tag && a[id].id == id
  }

  ghost predicate AsIssued(v: View, issued: map<string, Issue>) {
    forall k :: k in v ==> TagsAsIssued(v[k], issued)
  }

  lemma {:induction false} AgreeingViews(u: View, v: View, issued: map<string, Issue>)
    requires NonEmpty(u) && NonEmpty(v) && AsIssued(u, issued) && AsIssued(v, issued)
    ensures MergeView(u, v).Keys == u.Keys + v.Keys
    ensures forall key :: key in MergeView(u, v) ==> MergeView(u, v)[key] == TagsAt(u, key) + TagsAt(v, key)
    ensures MergeView(u, v) == MergeView(v, u)
  {
    MergeNeverDrops(u, v);
    forall key | key in MergeView(u, v) ensures MergeView(u, v)[key] == TagsAt(u, key) + TagsAt(v, key) {
      UnionAt(u, v, issued, key);
    }
    MergeCommutesIff(u, v);
  }

  lemma {:induction false} UnionAt(u: View, v: View, issued: map<string, Issue>, key: string)
    requires AsIssued(u, issued) && AsIssued(v, issued) && key in MergeView(u, v)
    ensures MergeView(u, v)[key] == TagsAt(u, key) + TagsAt(v, key)
  {
    var a, b := TagsAt(u, key), TagsAt(v, key);
    UnionOfAgreeing(a, b);
    WithEmpty(a);
    WithEmpty(b);
  }

  // ---------- what an add promises ----------

  /** The replica at `i` forgets the key in this step. */
  predicate Forgets<T>(a: Action<T>, i: nat, key: string) {
    (a.Remove? && a.at == i && a.key == key) || (a.Clear? && a.at == i)
  }

  lemma {:induction false} StepKeepsHeld<T>(s: System<T>, a: Action<T>, t: System<T>, i: nat, key: string, id: string)
    requires Next(s, a, t) && i < |s.replicas| && Holds(ViewOf(s.replicas[i]), key, id) && !Forgets(a, i, key)
    ensures i < |t.replicas| && Holds(ViewOf(t.replicas[i]), key, id)
  {
    match a
    case Add(j, k, value, node, freshId) =>
      if j == i && freshId !in s.issued {
        AddedShows(s.replicas[i], k, value, Tag(freshId, node, map[node := 1]));
      }
    case Remove(j, k) =>
    case Clear(j) =>
    case Pass(e) =>
      if e.Receive? && e.at == i && e.copy < |s.copies| {
        MergedShows(s.replicas[i], s.copies[e.copy], t.replicas[i]);
        MergeHolds(ViewOf(s.replicas[i]), ViewOf(s.copies[e.copy]), key, id);
      }
  }

  /**
   Over every run: once a replica has added a key, it holds the tag of that add,
   and so has the key, until it removes the key or is cleared itself.
   */
  lemma {:induction false} AddStays<T>(n: nat, actions: seq<Action<T>>, states: seq<System<T>>, p: nat, q: nat)
    requires Behaviour(n, actions, states) && p < q < |states| && actions[p].Add?
    requires actions[p].at < |states[p].replicas| && actions[p].id !in states[p].issued
    requires forall k :: p < k < q ==> !Forgets(actions[k], actions[p].at, actions[p].key)
    ensures
      var a := actions[p];
      && a.at < |states[q].replicas|
      && Holds(ViewOf(states[q].replicas[a.at]), a.key, a.id) && Has(ViewOf(states[q].replicas[a.at]), a.key)
  {
    var a := actions[p];
    assert Next(states[q - 1], actions[q - 1], states[q]);
    if q == p + 1 {
      AddedShows(states[p].replicas[a.at], a.key, a.value, Tag(a.id, a.node, map[a.node := 1]));
    } else {
      AddStays(n, actions, states, p, q - 1);
      StepKeepsHeld(states[q - 1], actions[q - 1], states[q], a.at, a.key, a.id);
    }
  }

  // ---------- after updates stop ----------

  /** Nothing but exchanges from `s` on. */
  ghost predicate Gossiping<T>(s: System<T>, gossip: seq<Exchange>, states: seq<System<T>>) {
    && |states| == |gossip| + 1 && states[0] == s
    && forall k :: 0 <= k < |gossip| ==> NextExchange(states[k], gossip[k], states[k + 1])
  }

  function ViewsOf<T>(ms: seq<Elements<T>>): seq<View> {
    seq(|ms|, i requires 0 <= i < |ms| => ViewOf(ms[i]))
  }

  /** What is shown when updates stop, by the replicas first, then by the copies in flight. */
  function Origins<T>(s: System<T>): seq<View> {
    ViewsOf(s.replicas + s.copies)
  }

  function HeardSince<T>(s: System<T>, gossip: seq<Exchange>): Heard {
    HearAll(HeardAtStart(|s.replicas|, |s.copies|), gossip)
  }

  predicate Holds(v: View, key: string, id: string) {
    key in v && id in v[key]
  }

  ghost predicate HeardOf(heard: set<nat>, origins: seq<View>, key: string, id: string) {
    exists o :: o in heard && o < |origins| && Holds(origins[o], key, id)
  }

  ghost predicate HoldsExactly(v: View, heard: set<nat>, origins: seq<View>) {
    forall key, id :: Holds(v, key, id) <==> HeardOf(heard, origins, key, id)
  }

  ghost predicate Tracks<T>(s: System<T>, h: Heard, origins: seq<View>) {
    && |h.replicas| == |s.replicas| && |h.copies| == |s.copies|
    && (forall i :: 0 <= i < |s.replicas| ==> HoldsExactly(ViewOf(s.replicas[i]), h.replicas[i], origins))
    && (forall c :: 0 <= c < |s.copies| ==> HoldsExactly(ViewOf(s.copies[c]), h.copies[c], origins))
  }

  lemma {:induction false} MergeHolds(v: View, w: View, key: string, id: string)
    ensures Holds(MergeView(v, w), key, id) <==> Holds(v, key, id) || Holds(w, key, id)
  {
    if key in v && key in w {
      EmptyMerge(v[key], w[key]);
    }
  }

  lemma {:induction false} MergeHoldsExactly(v: View, w: View, a: set<nat>, b: set<nat>, origins: seq<View>)
    requires HoldsExactly(v, a, origins) && HoldsExactly(w, b, origins)
    ensures HoldsExactly(MergeView(v, w), a + b, origins)
  {
    forall key, id ensures Holds(MergeView(v, w), key, id) <==> HeardOf(a + b, origins, key, id) {
      MergeHolds(v, w, key, id);
      if o :| o in a + b && o < |origins| && Holds(origins[o], key, id) {
        assert HeardOf(a, origins, key, id) || HeardOf(b, origins, key, id);
      }
      if o :| o in a && o < |origins| && Holds(origins[o], key, id) {
        assert o in a + b;
      }
      if o :| o in b && o < |origins| && Holds(origins[o], key, id) {
        assert o in a + b;
      }
    }
  }

  lemma {:induction false} HearTracks<T>(s: System<T>, h: Heard, e: Exchange, t: System<T>, origins: seq<View>)
    requires Tracks(s, h, origins) && NextExchange(s, e, t)
    ensures Tracks(t, Hear(h, e), origins)
  {
    if e.Receive? && e.at < |s.replicas| && e.copy < |s.copies| {
      var a, b := s.replicas[e.at], s.copies[e.copy];
      MergedShows(a, b, t.replicas[e.at]);
      MergeHoldsExactly(ViewOf(a), ViewOf(b), h.replicas[e.at], h.copies[e.copy], origins);
    }
  }

  lemma {:induction false} ItselfExactly(origins: seq<View>, o: nat)
    requires o < |origins|
    ensures HoldsExactly(origins[o], {o}, origins)
  {
    forall key, id ensures Holds(origins[o], key, id) <==> HeardOf({o}, origins, key, id) {
      if Holds(origins[o], key, id) {
        assert o in {o};
      }
    }
  }

  lemma {:induction false} StartTracked<T>(s: System<T>)
    ensures Tracks(s, HeardAtStart(|s.replicas|, |s.copies|), Origins(s))
  {
    forall i | 0 <= i < |s.replicas| ensures HoldsExactly(ViewOf(s.replicas[i]), {i}, Origins(s)) {
      ItselfExactly(Origins(s), i);
    }
    forall c | 0 <= c < |s.copies| ensures HoldsExactly(ViewOf(s.copies[c]), {|s.replicas| + c}, Origins(s)) {
      ItselfExactly(Origins(s), |s.replicas| + c);
    }
  }

  lemma {:induction false} GossipTracked<T>(s: System<T>, gossip: seq<Exchange>, states: seq<System<T>>, k: nat)
    requires AllHonest(s) && Gossiping(s, gossip, states) && k < |states|
    ensures Tracks(states[k], HeardSince(s, gossip[..k]), Origins(s))
    ensures AllHonest(states[k]) && states[k].issued == s.issued
  {
    if k == 0 {
      StartTracked(s);
    } else {
      GossipTracked(s, gossip, states, k - 1);
      ExchangeKeepsHonest(states[k - 1], gossip[k - 1], states[k]);
      HearTracks(states[k - 1], HeardSince(s, gossip[..k - 1]), gossip[k - 1], states[k], Origins(s));
      assert gossip[..k][..k - 1] == gossip[..k - 1];
    }
  }

  /** The union of some views, under every key. */
  function UnionOf(views: seq<View>): View {
    if views == [] then map[] else MergeView(UnionOf(views[..|views| - 1]), views[|views| - 1])
  }

  lemma {:induction false} UnionHolds(views: seq<View>, key: string, id: string)
    ensures Holds(UnionOf(views), key, id) <==> exists v :: v in views && Holds(v, key, id)
  {
    if views == [] {
    } else {
      var init, last := views[..|views| - 1], views[|views| - 1];
      UnionHolds(init, key, id);
      MergeHolds(UnionOf(init), last, key, id);
      assert views == init + [last];
      if v :| v in init && Holds(v, key, id) {
        assert v in views;
      }
      if Holds(last, key, id) {
        assert last in views;
      }
    }
  }

  ghost predicate HonestShown(v: View, issued: map<string, Issue>) {
    NonEmpty(v) && AsIssued(v, issued)
  }

  lemma {:induction false} MergeShownHonest(u: View, v: View, issued: map<string, Issue>)
    requires HonestShown(u, issued) && HonestShown(v, issued)
    ensures HonestShown(MergeView(u, v), issued)
  {
    MergeNeverDrops(u, v);
    forall key | key in MergeView(u, v) ensures TagsAsIssued(MergeView(u, v)[key], issued) {
      UnionAt(u, v, issued, key);
    }
  }

  lemma {:induction false} UnionHonest(views: seq<View>, issued: map<string, Issue>)
    requires forall i :: 0 <= i < |views| ==> HonestShown(views[i], issued)
    ensures HonestShown(UnionOf(views), issued)
  {
    if views == [] {
    } else {
      UnionHonest(views[..|views| - 1], issued);
      MergeShownHonest(UnionOf(views[..|views| - 1]), views[|views| - 1], issued);
    }
  }

  /** Honest views are determined by the ids they hold. */
  lemma {:induction false} SameHolding(u: View, v: View, issued: map<string, Issue>)
    requires HonestShown(u, issued) && HonestShown(v, issued)
    requires forall key, id :: Holds(u, key, id) <==> Holds(v, key, id)
    ensures u == v
  {
    forall key ensures key in u <==> key in v {
      if key in u {
        var id :| id in u[key];
        assert Holds(u, key, id);
      }
      if key in v {
        var id :| id in v[key];
        assert Holds(v, key, id);
      }
    }
    forall key | key in u ensures u[key] == v[key] {
      forall id ensures id in u[key] <==> id in v[key] {
        assert Holds(u, key, id) <==> Holds(v, key, id);
      }
    }
    SameView(u, v);
  }

  lemma {:induction false} OriginsHonest<T>(s: System<T>)
    requires AllHonest(s)
    ensures forall o :: 0 <= o < |Origins(s)| ==> HonestShown(Origins(s)[o], s.issued)
  {
    var all := s.replicas + s.copies;
    forall o | 0 <= o < |all| ensures HonestShown(ViewOf(all[o]), s.issued) {
      HonestView(all[o], s.issued);
    }
  }

  lemma {:induction false} HeardIsUnion(v: View, heard: set<nat>, origins: seq<View>, issued: map<string, Issue>)
    requires HonestShown(v, issued) && HoldsExactly(v, heard, origins)
    requires forall o :: 0 <= o < |origins| ==> HonestShown(origins[o], issued)
    ensures v == UnionOf(Chosen(origins, heard))
  {
    var chosen := Chosen(origins, heard);
    forall i | 0 <= i < |chosen| ensures HonestShown(chosen[i], issued) {
      ChosenContains(origins, heard, chosen[i]);
    }
    UnionHonest(chosen, issued);
    forall key, id ensures Holds(v, key, id) <==> Holds(UnionOf(chosen), key, id) {
      UnionHolds(chosen, key, id);
      if o :| o in heard && o < |origins| && Holds(origins[o], key, id) {
        ChosenContains(origins, heard, origins[o]);
      }
      if w :| w in chosen && Holds(w, key, id) {
        ChosenContains(origins, heard, w);
      }
    }
    SameHolding(v, UnionOf(chosen), issued);
  }

  /**
   After any run and any gossip a replica shows, under every key, the union of
   the tags in exactly the states it has heard of, so an element is there just
   when one of them has it; replicas that have heard of the same states agree.
   */
  lemma {:induction false} GossipExact<T>(n: nat, actions: seq<Action<T>>, run: seq<System<T>>,
                                          gossip: seq<Exchange>, states: seq<System<T>>, i: nat)
    requires Behaviour(n, actions, run) && Gossiping(run[|actions|], gossip, states)
    requires i < |run[|actions|].replicas|
    ensures
      var s, t := run[|actions|], states[|gossip|];
      var heard := HeardSince(s, gossip);
      && i < |t.replicas| && i < |heard.replicas| && i in heard.replicas[i]
      && ViewOf(t.replicas[i]) == UnionOf(Chosen(Origins(s), heard.replicas[i]))
      && (forall key :: Has(ViewOf(t.replicas[i]), key) <==>
            exists o :: o in heard.replicas[i] && o < |Origins(s)| && Has(Origins(s)[o], key))
  {
    var s, t := run[|actions|], states[|gossip|];
    var heard := HeardSince(s, gossip);
    RunHonest(n, actions, run, |actions|);
    GossipTracked(s, gossip, states, |gossip|);
    assert gossip[..|gossip|] == gossip;
    HearsItself(|s.replicas|, |s.copies|, gossip);
    OriginsHonest(s);
    HonestView(t.replicas[i], t.issued);
    HeardIsUnion(ViewOf(t.replicas[i]), heard.replicas[i], Origins(s), s.issued);
    forall key ensures Has(ViewOf(t.replicas[i]), key) <==>
      exists o :: o in heard.replicas[i] && o < |Origins(s)| && Has(Origins(s)[o], key)
    {
      HasIffHeard(ViewOf(t.replicas[i]), heard.replicas[i], Origins(s), key);
    }
  }

  lemma {:induction false} HasIffHeard(v: View, heard: set<nat>, origins: seq<View>, key: string)
    requires HoldsExactly(v, heard, origins)
    ensures Has(v, key) <==> exists o :: o in heard && o < |origins| && Has(origins[o], key)
  {
    if Has(v, key) {
      var id :| id in v[key];
      assert Holds(v, key, id);
      var o :| o in heard && o < |origins| && Holds(origins[o], key, id);
      assert Has(origins[o], key);
    }
    if o :| o in heard && o < |origins| && Has(origins[o], key) {
      var id :| id in origins[o][key];
      assert Holds(origins[o], key, id);
      assert Holds(v, key, id);
    }
  }

  /** The scenario of `test_or_set_add_remove_conflict`: the removed element is back after the merge. */
  lemma {:induction false} RemovedElementReturns(key: string, value: string, tag1: Tag, tag2: Tag)
    ensures
      var set1 := Added(map[], key, value, tag1);
      var set2 := Added(map[], key, value, tag2) - {key};
      !Has(ViewOf(set2), key) && Has(MergeView(ViewOf(set1), ViewOf(set2)), key)
  {
    var set1: Elements<string> := Added(map[], key, value, tag1);
    var set2: Elements<string> := Added(map[], key, value, tag2) - {key};
    TagMapContents(set1[key].tags);
    MergeHasIff(ViewOf(set1), ViewOf(set2), key);
  }
}

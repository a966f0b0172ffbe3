/**
 The last-write-wins element set.  Every key holds the newest write it has
 seen; equal timestamps fall back to comparing vector clocks, which is only a
 partial order.  What an application observes of a set is its view, the
 timestamp and the add/remove flag of every key.
 */
module LwwElementSets {
  import opened Wrappers
  import opened VectorClocks

  datatype Element<T> = Element(value: T, timestamp: int, clock: Clock, isAdd: bool)

  type Elements<T> = map<string, Element<T>>

  // ---------- the operations on one replica's map ----------

  /** A local `add` or `remove`: `e` carries a fresh one-node clock. */
  ghost function Write<T>(m: Elements<T>, key: string, e: Element<T>): Elements<T> {
    if key !in m || e.timestamp > m[key].timestamp then m[key := e]
    else if e.timestamp == m[key].timestamp && Order(e.clock, m[key].clock) > 0 then m[key := e]
    else m
  }

  /** What `merge` leaves under a key that both sides hold. */
  ghost function Resolve<T>(existing: Element<T>, other: Element<T>): Element<T> {
    var merged := other.(clock := Merge(existing.clock, other.clock));
    if other.timestamp > existing.timestamp then other
    else if other.timestamp < existing.timestamp then existing
    else if Order(other.clock, existing.clock) > 0 then merged
    else if Order(other.clock, existing.clock) == 0 && other.isAdd && !existing.isAdd then merged
    else existing
  }

  ghost function MergeElements<T>(a: Elements<T>, b: Elements<T>): Elements<T> {
    map k | k in a.Keys + b.Keys ::
      if k !in b then a[k] else if k !in a then b[k] else Resolve(a[k], b[k])
  }

  class LwwElementSet<T(==,!new)> {
    const keyOf: T -> string
    var elements: Elements<T>

    /** Keys are the serialized values, and serialization is injective. */
    ghost predicate Valid()
      reads this
    {
      && (forall u: T, v: T :: keyOf(u) == keyOf(v) ==> u == v)
      && (forall k :: k in elements ==> keyOf(elements[k].value) == k)
    }

    constructor (keyOf: T -> string)
      requires forall u: T, v: T :: keyOf(u) == keyOf(v) ==> u == v
      ensures Valid() && this.keyOf == keyOf && elements == map[]
    {
      this.keyOf := keyOf;
      elements := map[];
    }

    method Add(value: T, node: string, timestamp: Option<int>, now: int)
      requires Valid()
      modifies this
      ensures Valid()
      ensures
        var time := if timestamp.Some? then timestamp.value else now;
        elements == Write(old(elements), keyOf(value), Element(value, time, map[node := 1], true))
    {
      Put(value, node, if timestamp.Some? then timestamp.value else now, true);
    }

    method Remove(value: T, node: string, timestamp: Option<int>, now: int)
      requires Valid()
      modifies this
      ensures Valid()
      ensures
        var time := if timestamp.Some? then timestamp.value else now;
        elements == Write(old(elements), keyOf(value), Element(value, time, map[node := 1], false))
    {
      Put(value, node, if timestamp.Some? then timestamp.value else now, false);
    }

    /** The branches shared word for word by `add` and `remove`. */
    method Put(value: T, node: string, timestamp: int, isAdd: bool)
      requires Valid()
      modifies this
      ensures Valid()
      ensures elements == Write(old(elements), keyOf(value), Element(value, timestamp, map[node := 1], isAdd))
    {
      var key := keyOf(value);
      var clock: Clock := map[node := 1];
      if key in elements {
        var existing := elements[key];
        if timestamp > existing.timestamp {
          elements := elements[key := Element(value, timestamp, clock, isAdd)];
        } else if timestamp == existing.timestamp {
          var comparison := Compare(clock, existing.clock);
          if comparison > 0 {
            elements := elements[key := Element(value, timestamp, clock, isAdd)];
          }
        }
      } else {
        elements := elements[key := Element(value, timestamp, clock, isAdd)];
      }
    }

    predicate Has(value: T): (present: bool)
      reads this
      ensures present <==> Live(ViewOf(elements), keyOf(value))
    {
      keyOf(value) in elements && elements[keyOf(value)].isAdd
    }

    /** The values of the live keys in some order, each exactly once. */
    method Values() returns (result: seq<T>)
      requires Valid()
      ensures forall v: T :: v in result <==> Has(v)
      ensures forall i, j :: 0 <= i < j < |result| ==> result[i] != result[j]
      ensures |result| == |LiveKeys(elements)|
    {
      result := [];
      ghost var listed: set<string> := {};
      var todo := elements.Keys;
      while todo != {}
        invariant todo <= elements.Keys
        invariant listed == set k | k in elements && k !in todo && elements[k].isAdd
        invariant Lists(keyOf, elements, listed, result)
        decreases todo
      {
        var k :| k in todo;
        if elements[k].isAdd {
          ListsOneMore(keyOf, elements, listed, result, k);
          result, listed := result + [elements[k].value], listed + {k};
        }
        todo := todo - {k};
      }
      assert listed == LiveKeys(elements);
      forall v: T ensures v in result <==> Has(v) {
        ListsExactly(keyOf, elements, listed, result, v);
      }
    }

    method Size() returns (n: nat)
      ensures n == |LiveKeys(elements)|
    {
      n := 0;
      ghost var counted: set<string> := {};
      var todo := elements.Keys;
      while todo != {}
        invariant todo <= elements.Keys
        invariant counted == set k | k in elements && k !in todo && elements[k].isAdd
        invariant n == |counted|
        decreases todo
      {
        var k :| k in todo;
        if elements[k].isAdd {
          n, counted := n + 1, counted + {k};
        }
        todo := todo - {k};
      }
      assert counted == LiveKeys(elements);
    }

    /** One turn of the loop in `merge`. */
    method MergeKey(k: string, theirs: Element<T>)
      modifies this
      ensures elements == old(elements)[k := if k in old(elements) then Resolve(old(elements)[k], theirs) else theirs]
    {
      if k in elements {
        var resolved := ResolveConflict(elements[k], theirs);
        elements := elements[k := resolved];
      } else {
        elements := elements[k := theirs];
      }
    }

    /** The branches of `merge` for a key that both sides hold. */
    static method ResolveConflict(existing: Element<T>, other: Element<T>) returns (r: Element<T>)
      ensures r == Resolve(existing, other)
    {
      r := existing;
      if other.timestamp > existing.timestamp {
        r := other;
      } else if other.timestamp == existing.timestamp {
        var mergedClock := MergeClocks(existing.clock, other.clock);
        var comparison := Compare(other.clock, existing.clock);
        if comparison > 0 {
          r := other.(clock := mergedClock);
        } else if comparison == 0 {
          if other.isAdd && !existing.isAdd {
            r := other.(clock := mergedClock);
          }
        }
      }
    }

    method Merge(other: LwwElementSet<T>)
      requires Valid() && other.Valid() && other != this && other.keyOf == keyOf
      modifies this
      ensures Valid()
      ensures elements == MergeElements(old(elements), other.elements)
    {
      var theirs := other.elements;
      ghost var start, target := elements, MergeElements(elements, theirs);
      MergeKeepsKeys(keyOf, start, theirs);
      var todo := theirs.Keys;
      while todo != {}
        invariant todo <= theirs.Keys
        invariant forall k :: k in elements <==> k in start || (k in theirs && k !in todo)
        invariant forall k :: k in elements && k in todo ==> elements[k] == start[k]
        invariant forall k :: k in elements && k !in todo ==> elements[k] == target[k]
        decreases todo
      {
        var k :| k in todo;
        MergeKey(k, theirs[k]);
        todo := todo - {k};
      }
      SameEntries(elements, target);
    }

    method Clear()
      requires Valid()
      modifies this
      ensures Valid() && elements == map[]
    {
      elements := map[];
    }
  }

  lemma {:induction false} SameEntries<T>(m: Elements<T>, n: Elements<T>)
    requires forall k :: k in m <==> k in n
    requires forall k :: k in m ==> m[k] == n[k]
    ensures m == n
  {
  }

  lemma {:induction false} MergeKeepsKeys<T>(keyOf: T -> string, a: Elements<T>, b: Elements<T>)
    requires forall k :: k in a ==> keyOf(a[k].value) == k
    requires forall k :: k in b ==> keyOf(b[k].value) == k
    ensures forall k :: k in MergeElements(a, b) ==> keyOf(MergeElements(a, b)[k].value) == k
  {
  }

  /** The values stored under the given keys, each once. */
  ghost predicate Lists<T>(keyOf: T -> string, m: Elements<T>, keys: set<string>, values: seq<T>) {
    && keys <= m.Keys && |values| == |keys|
    && (forall k :: k in keys ==> m[k].value in values)
    && (forall v :: v in values ==> keyOf(v) in keys && m[keyOf(v)].value == v)
    && (forall i, j :: 0 <= i < j < |values| ==> values[i] != values[j])
  }

  lemma {:induction false} ListsOneMore<T>(keyOf: T -> string, m: Elements<T>, keys: set<string>, values: seq<T>,
                                           k: string)
    requires Lists(keyOf, m, keys, values) && k in m.Keys - keys && keyOf(m[k].value) == k
    ensures Lists(keyOf, m, keys + {k}, values + [m[k].value])
  {
    var more := values + [m[k].value];
    assert more[|values|] == m[k].value;
    forall v | v in values ensures v in more {
    }
  }

  lemma {:induction false} ListsExactly<T(!new)>(keyOf: T -> string, m: Elements<T>, keys: set<string>,
                                                 values: seq<T>, v: T)
    requires Lists(keyOf, m, keys, values)
    requires forall u: T, w: T :: keyOf(u) == keyOf(w) ==> u == w
    requires forall k :: k in m ==> keyOf(m[k].value) == k
    ensures v in values <==> keyOf(v) in keys
  {
    if keyOf(v) in keys {
      assert m[keyOf(v)].value == v;
    }
  }

  // ---------- what is observed of a set ----------

  datatype Stamp = Stamp(timestamp: int, isAdd: bool)

  type View = map<string, Stamp>

  /** Newest first; at one timestamp an add outranks a remove. */
  predicate AtMost(x: Stamp, y: Stamp) {
    x.timestamp < y.timestamp || (x.timestamp == y.timestamp && (x.isAdd ==> y.isAdd))
  }

  function Later(x: Stamp, y: Stamp): Stamp {
    if AtMost(x, y) then y else x
  }

  function StampOf<T>(e: Element<T>): Stamp {
    Stamp(e.timestamp, e.isAdd)
  }

  function ViewOf<T>(m: Elements<T>): View {
    map k | k in m :: StampOf(m[k])
  }

  /** The newest write of the key is an add. */
  predicate Live(v: View, key: string) {
    key in v && v[key].isAdd
  }

  function LiveKeys<T>(m: Elements<T>): (keys: set<string>)
    ensures forall k :: k in keys <==> Live(ViewOf(m), k)
  {
    set k | k in m && m[k].isAdd
  }

  function Join(v: View, w: View): View {
    map k | k in v.Keys + w.Keys ::
      if k !in w then v[k] else if k !in v then w[k] else Later(v[k], w[k])
  }

  ghost predicate ViewAtMost(v: View, w: View) {
    forall k :: k in v ==> k in w && AtMost(v[k], w[k])
  }

  lemma {:induction false} JoinLaws(u: View, v: View, w: View)
    ensures Join(u, v) == Join(v, u)
    ensures Join(u, Join(v, w)) == Join(Join(u, v), w)
    ensures Join(u, u) == u
  {
    JoinAssociative(u, v, w);
  }

  lemma {:induction false} JoinAssociative(u: View, v: View, w: View)
    ensures Join(u, Join(v, w)) == Join(Join(u, v), w)
  {
    var l, r := Join(u, Join(v, w)), Join(Join(u, v), w);
    assert l.Keys == r.Keys;
    forall k | k in l ensures l[k] == r[k] {
    }
  }

  /** Join is the least upper bound of views. */
  lemma {:induction false} JoinIsLub(u: View, v: View, w: View)
    ensures ViewAtMost(u, Join(u, v)) && ViewAtMost(v, Join(u, v))
    ensures ViewAtMost(Join(u, v), w) <==> ViewAtMost(u, w) && ViewAtMost(v, w)
  {
    if ViewAtMost(Join(u, v), w) {
      forall k | k in u ensures k in w && AtMost(u[k], w[k]) {
        assert k in Join(u, v);
      }
      forall k | k in v ensures k in w && AtMost(v[k], w[k]) {
        assert k in Join(u, v);
      }
    }
  }

  // ---------- when merge is the join ----------

  /** A remove and an add tie on time, and the remove's clock strictly dominates the add's. */
  ghost predicate Overridden<T>(x: Element<T>, y: Element<T>) {
    && x.timestamp == y.timestamp
    && ((x.isAdd && !y.isAdd && Order(y.clock, x.clock) == 1) ||
        (y.isAdd && !x.isAdd && Order(x.clock, y.clock) == 1))
  }

  lemma {:induction false} ResolveIsLaterIff<T>(x: Element<T>, y: Element<T>)
    ensures StampOf(Resolve(x, y)) == Later(StampOf(x), StampOf(y)) <==> !Overridden(x, y)
    ensures StampOf(Resolve(x, y)) == StampOf(Resolve(y, x))
  {
    OrderAntisymmetric(x.clock, y.clock);
  }

  /** The newer element wins as it is; at one time with neither clock ahead, an add wins over a remove. */
  lemma {:induction false} ResolveTakes<T>(x: Element<T>, y: Element<T>)
    ensures y.timestamp > x.timestamp ==> Resolve(x, y) == y
    ensures y.timestamp < x.timestamp ==> Resolve(x, y) == x
    ensures y.timestamp == x.timestamp && Order(x.clock, y.clock) == 0 ==>
      (Resolve(x, y).isAdd <==> x.isAdd || y.isAdd)
  {
    OrderAntisymmetric(x.clock, y.clock);
  }

  /** An element taken over at a tie carries the least clock above both. */
  lemma {:induction false} ResolveClock<T>(x: Element<T>, y: Element<T>, c: Clock)
    requires x.timestamp == y.timestamp && Resolve(x, y) != x
    ensures
      var r := Resolve(x, y);
      && r == y.(clock := r.clock) && Leq(x.clock, r.clock) && Leq(y.clock, r.clock)
      && (Leq(x.clock, c) && Leq(y.clock, c) ==> Leq(r.clock, c))
  {
    MergeIsLub(x.clock, y.clock, c);
  }

  /** On arbitrary states `merge` is the pointwise maximum of the views exactly where no add is overridden. */
  lemma {:induction false} MergeIsJoinIff<T>(a: Elements<T>, b: Elements<T>)
    ensures ViewOf(MergeElements(a, b)) == Join(ViewOf(a), ViewOf(b))
      <==> forall k :: k in a && k in b ==> !Overridden(a[k], b[k])
  {
    forall k | k in a || k in b
      ensures StampOf(MergeElements(a, b)[k]) == Join(ViewOf(a), ViewOf(b))[k]
        <==> !(k in a && k in b && Overridden(a[k], b[k]))
    {
      if k in a && k in b {
        ResolveIsLaterIff(a[k], b[k]);
      }
    }
    SameViewIff(MergeElements(a, b), Join(ViewOf(a), ViewOf(b)));
  }

  lemma {:induction false} SameViewIff<T>(m: Elements<T>, v: View)
    requires m.Keys == v.Keys
    ensures ViewOf(m) == v <==> forall k :: k in m ==> StampOf(m[k]) == v[k]
  {
    assert ViewOf(m).Keys == v.Keys;
    if ViewOf(m) == v {
      forall k | k in m ensures StampOf(m[k]) == v[k] {
        assert ViewOf(m)[k] == v[k];
      }
    }
  }

  /** `merge` commutes on views, whatever the states. */
  lemma {:induction false} MergeCommutes<T>(a: Elements<T>, b: Elements<T>)
    ensures ViewOf(MergeElements(a, b)) == ViewOf(MergeElements(b, a))
  {
    var m, n := MergeElements(a, b), MergeElements(b, a);
    assert ViewOf(m).Keys == ViewOf(n).Keys;
    forall k | k in m ensures StampOf(m[k]) == StampOf(n[k]) {
      if k in a && k in b {
        ResolveIsLaterIff(a[k], b[k]);
      }
    }
  }

  /** Associativity fails on arbitrary states: an add, a remove and a dominating remove at one timestamp. */
  lemma {:induction false} MergeNotAssociative() returns (a: Elements<int>, b: Elements<int>, c: Elements<int>)
    ensures ViewOf(MergeElements(MergeElements(a, b), c)) != ViewOf(MergeElements(a, MergeElements(b, c)))
  {
    var x, y, z := ResolveNotAssociative();
    a, b, c := map["k" := x], map["k" := y], map["k" := z];
    ResolveSingletons(x, y);
    ResolveSingletons(y, z);
    ResolveSingletons(Resolve(x, y), z);
    ResolveSingletons(x, Resolve(y, z));
    assert ViewOf(MergeElements(MergeElements(a, b), c))["k"] != ViewOf(MergeElements(a, MergeElements(b, c)))["k"];
  }

  lemma {:induction false} ResolveNotAssociative() returns (x: Element<int>, y: Element<int>, z: Element<int>)
    ensures StampOf(Resolve(Resolve(x, y), z)) != StampOf(Resolve(x, Resolve(y, z)))
  {
    x := Element(0, 0, map["a" := 1], true);
    y, z := Element(0, 0, map["b" := 1], false), Element(0, 0, map["a" := 2], false);
    ThreeClocks();
    assert Resolve(x, y) == x && Resolve(y, z) == y;
  }

  lemma {:induction false} ThreeClocks()
    ensures Order(map["b" := 1], map["a" := 1]) == 0
    ensures Order(map["a" := 2], map["b" := 1]) == 0
    ensures Order(map["a" := 2], map["a" := 1]) == 1
  {
    var x: Clock, y: Clock, z: Clock := map["a" := 1], map["b" := 1], map["a" := 2];
    assert Counter(x, "a") == 1 && Counter(y, "a") == 0 && Counter(z, "a") == 2;
    assert Counter(x, "b") == 0 && Counter(y, "b") == 1 && Counter(z, "b") == 0;
    assert Leq(x, z);
  }

  lemma {:induction false} ResolveSingletons<T>(x: Element<T>, y: Element<T>)
    ensures MergeElements(map["k" := x], map["k" := y]) == map["k" := Resolve(x, y)]
  {
  }

  // ---------- the invariant of states built by the operations ----------

  predicate UnitClock(c: Clock) {
    c != map[] && forall n :: n in c ==> c[n] == 1
  }

  /** Counters are all 1, and only an add can carry more than one node. */
  predicate Sound<T>(e: Element<T>) {
    UnitClock(e.clock) && (!e.isAdd ==> |e.clock| == 1)
  }

  predicate AllSound<T>(m: Elements<T>) {
    forall k :: k in m ==> Sound(m[k])
  }

  lemma {:induction false} UnitClockOrder(a: Clock, b: Clock)
    requires UnitClock(a) && UnitClock(b)
    ensures Order(a, b) == 1 ==> |a| > |b| > 0
  {
    if Order(a, b) == 1 {
      forall n | n in b ensures n in a {
        assert Counter(b, n) <= Counter(a, n);
      }
      var n: string :| Counter(a, n) > Counter(b, n);
      SmallerSet(b.Keys, a.Keys);
      assert b.Keys != {};
    }
  }

  lemma {:induction false} SmallerSet(s: set<string>, t: set<string>)
    requires s < t
    ensures |s| < |t|
  {
    var d := t - s;
    assert t == s + d && d != {};
  }

  lemma {:induction false} SoundNotOverridden<T>(x: Element<T>, y: Element<T>)
    requires Sound(x) && Sound(y)
    ensures !Overridden(x, y)
  {
    UnitClockOrder(x.clock, y.clock);
    UnitClockOrder(y.clock, x.clock);
  }

  lemma {:induction false} ResolveKeepsSound<T>(x: Element<T>, y: Element<T>)
    requires Sound(x) && Sound(y)
    ensures Sound(Resolve(x, y))
  {
    UnitClockOrder(y.clock, x.clock);
    var c := Merge(x.clock, y.clock);
    assert y.clock.Keys <= c.Keys;
    forall n | n in c ensures c[n] == 1 {
    }
    var n :| n in y.clock;
    assert n in c;
  }

  lemma {:induction false} WriteKeepsSound<T>(m: Elements<T>, key: string, e: Element<T>, node: string)
    requires AllSound(m) && e.clock == map[node := 1]
    ensures AllSound(Write(m, key, e))
  {
    assert e.clock.Keys == {node};
  }

  lemma {:induction false} MergeKeepsSound<T>(a: Elements<T>, b: Elements<T>)
    requires AllSound(a) && AllSound(b)
    ensures AllSound(MergeElements(a, b))
  {
    forall k | k in a && k in b ensures Sound(Resolve(a[k], b[k])) {
      ResolveKeepsSound(a[k], b[k]);
    }
  }

  /** On sound states `merge` is the join of the views. */
  lemma {:induction false} MergeIsJoin<T>(a: Elements<T>, b: Elements<T>)
    requires AllSound(a) && AllSound(b)
    ensures ViewOf(MergeElements(a, b)) == Join(ViewOf(a), ViewOf(b))
  {
    forall k | k in a && k in b ensures !Overridden(a[k], b[k]) {
      SoundNotOverridden(a[k], b[k]);
    }
    MergeIsJoinIff(a, b);
  }

  /** On sound states `merge` is commutative, associative and idempotent on views. */
  lemma {:induction false} MergeLaws<T>(a: Elements<T>, b: Elements<T>, c: Elements<T>)
    requires AllSound(a) && AllSound(b) && AllSound(c)
    ensures ViewOf(MergeElements(a, b)) == ViewOf(MergeElements(b, a))
    ensures ViewOf(MergeElements(MergeElements(a, b), c)) == ViewOf(MergeElements(a, MergeElements(b, c)))
    ensures ViewOf(MergeElements(a, a)) == ViewOf(a)
  {
    MergeKeepsSound(a, b);
    MergeKeepsSound(b, c);
    MergeIsJoin(a, b);
    MergeIsJoin(b, a);
    MergeIsJoin(b, c);
    MergeIsJoin(a, a);
    MergeIsJoin(MergeElements(a, b), c);
    MergeIsJoin(a, MergeElements(b, c));
    JoinLaws(ViewOf(a), ViewOf(b), ViewOf(c));
  }

  /** A one-node clock never wins a tie, so only a strictly newer local write takes effect. */
  lemma {:induction false} OldWriteDropped<T>(m: Elements<T>, key: string, e: Element<T>, node: string)
    requires AllSound(m) && e.clock == map[node := 1]
    requires key in m && e.timestamp <= m[key].timestamp
    ensures Write(m, key, e) == m
  {
    assert node in e.clock && e.clock.Keys == {node};
    UnitClockOrder(e.clock, m[key].clock);
  }

  /** The exact effect of a local write on the view, which it never lowers. */
  lemma {:induction false} WriteView<T>(m: Elements<T>, key: string, e: Element<T>, node: string)
    requires AllSound(m) && e.clock == map[node := 1]
    ensures ViewOf(Write(m, key, e)) ==
      if key in m && e.timestamp <= m[key].timestamp then ViewOf(m) else ViewOf(m)[key := StampOf(e)]
    ensures ViewAtMost(ViewOf(m), ViewOf(Write(m, key, e)))
  {
    if key in m && e.timestamp <= m[key].timestamp {
      OldWriteDropped(m, key, e, node);
    } else {
      assert ViewOf(m[key := e]) == ViewOf(m)[key := StampOf(e)];
    }
  }
}

/**
 Any number of last-write-wins replicas exchanging copies of their state.  A
 copy is taken at some moment and may be merged later, repeatedly, anywhere or
 never, so messages can be stale, reordered, duplicated and lost.

 Each replica carries the history that reached it: the writes that took effect
 somewhere and travelled here since the last `clear`.  Nothing reads the
 history; it only lets the theorems say what a view must be.
 */
module LwwReplicas {
  import opened VectorClocks
  import opened LwwElementSets
  import opened Gossips

  datatype Written = Written(key: string, stamp: Stamp)

  datatype Replica<T> = Replica(elements: Elements<T>, seen: set<Written>)

  datatype System<T> = System(replicas: seq<Replica<T>>, copies: seq<Replica<T>>)

  datatype Action<T> =
    | Put(at: nat, key: string, value: T, node: string, timestamp: int, isAdd: bool)
    | Clear(at: nat)
    | Pass(exchange: Exchange)

  ghost function PutAt<T>(r: Replica<T>, key: string, e: Element<T>): Replica<T> {
    var after := Write(r.elements, key, e);
    Replica(after, if after == r.elements then r.seen else r.seen + {Written(key, StampOf(e))})
  }

  ghost function MergeAt<T>(r: Replica<T>, copy: Replica<T>): Replica<T> {
    Replica(MergeElements(r.elements, copy.elements), r.seen + copy.seen)
  }

  ghost function Exchanged<T>(s: System<T>, e: Exchange): System<T> {
    if e.at >= |s.replicas| then s
    else
      match e
      case Send(i) => s.(copies := s.copies + [s.replicas[i]])
      case Receive(i, c) =>
        if c >= |s.copies| then s else s.(replicas := s.replicas[i := MergeAt(s.replicas[i], s.copies[c])])
  }

  /** One step; an action naming a replica or copy that does not exist changes nothing. */
  ghost function Apply<T>(s: System<T>, a: Action<T>): System<T> {
    match a
    case Put(i, key, value, node, ts, isAdd) =>
      if i >= |s.replicas| then s
      else s.(replicas := s.replicas[i := PutAt(s.replicas[i], key, Element(value, ts, map[node := 1], isAdd))])
    case Clear(i) => if i >= |s.replicas| then s else s.(replicas := s.replicas[i := Replica(map[], {})])
    case Pass(e) => Exchanged(s, e)
  }

  ghost function Run<T>(s: System<T>, actions: seq<Action<T>>): System<T> {
    if actions == [] then s
    else Apply(Run(s, actions[..|actions| - 1]), actions[|actions| - 1])
  }

  ghost function Fresh<T>(n: nat): System<T> {
    System(seq(n, _ => Replica(map[], {})), [])
  }

  /** `v` is the pointwise newest of the writes in `seen`, and of nothing else. */
  ghost predicate Explains(seen: set<Written>, v: View) {
    && (forall w :: w in seen ==> w.key in v && AtMost(w.stamp, v[w.key]))
    && (forall k :: k in v ==> Written(k, v[k]) in seen)
  }

  ghost predicate Good<T>(r: Replica<T>) {
    AllSound(r.elements) && Explains(r.seen, ViewOf(r.elements))
  }

  ghost predicate AllGood<T>(s: System<T>) {
    && (forall i :: 0 <= i < |s.replicas| ==> Good(s.replicas[i]))
    && (forall i :: 0 <= i < |s.copies| ==> Good(s.copies[i]))
  }

  lemma {:induction false} ExplainsUnique(seen: set<Written>, v: View, w: View)
    requires Explains(seen, v) && Explains(seen, w)
    ensures v == w
  {
    ExplainsMonotone(seen, v, seen, w);
    ExplainsMonotone(seen, w, seen, v);
  }

  lemma {:induction false} ExplainsMonotone(seen: set<Written>, v: View, more: set<Written>, w: View)
    requires seen <= more && Explains(seen, v) && Explains(more, w)
    ensures ViewAtMost(v, w)
  {
    forall k | k in v ensures k in w && AtMost(v[k], w[k]) {
      assert Written(k, v[k]) in more;
    }
  }

  lemma {:induction false} ExplainsJoin(s: set<Written>, v: View, t: set<Written>, w: View)
    requires Explains(s, v) && Explains(t, w)
    ensures Explains(s + t, Join(v, w))
  {
  }

  lemma {:induction false} PutKeepsGood<T>(r: Replica<T>, key: string, e: Element<T>, node: string)
    requires Good(r) && e.clock == map[node := 1]
    ensures Good(PutAt(r, key, e))
  {
    if key in r.elements && e.timestamp <= r.elements[key].timestamp {
      OldWriteDropped(r.elements, key, e, node);
    } else {
      WriteKeepsSound(r.elements, key, e, node);
      WriteView(r.elements, key, e, node);
      assert Write(r.elements, key, e)[key] == e;
      ExplainsNewer(r.seen, ViewOf(r.elements), key, StampOf(e));
    }
  }

  lemma {:induction false} ExplainsNewer(seen: set<Written>, v: View, key: string, s: Stamp)
    requires Explains(seen, v) && (key in v ==> v[key].timestamp < s.timestamp)
    ensures Explains(seen + {Written(key, s)}, v[key := s])
  {
  }

  lemma {:induction false} MergeKeepsGood<T>(r: Replica<T>, copy: Replica<T>)
    requires Good(r) && Good(copy)
    ensures Good(MergeAt(r, copy))
  {
    MergeKeepsSound(r.elements, copy.elements);
    MergeIsJoin(r.elements, copy.elements);
    ExplainsJoin(r.seen, ViewOf(r.elements), copy.seen, ViewOf(copy.elements));
  }

  lemma {:induction false} ExchangeKeepsGood<T>(s: System<T>, e: Exchange)
    requires AllGood(s)
    ensures AllGood(Exchanged(s, e))
  {
    if e.Receive? && e.at < |s.replicas| && e.copy < |s.copies| {
      MergeKeepsGood(s.replicas[e.at], s.copies[e.copy]);
    }
  }

  lemma {:induction false} ApplyKeepsGood<T>(s: System<T>, a: Action<T>)
    requires AllGood(s)
    ensures AllGood(Apply(s, a))
  {
    match a
    case Put(i, key, value, node, ts, isAdd) =>
      if i < |s.replicas| {
        PutKeepsGood(s.replicas[i], key, Element(value, ts, map[node := 1], isAdd), node);
      }
    case Clear(i) =>
    case Pass(e) => ExchangeKeepsGood(s, e);
  }

  /**
   In every state of every run, each replica's view is exactly the pointwise
   newest of the effective writes in its causal history.
   */
  lemma {:induction false} RunExplained<T>(n: nat, actions: seq<Action<T>>)
    ensures AllGood(Run(Fresh<T>(n), actions))
  {
    if actions == [] {
    } else {
      RunExplained(n, actions[..|actions| - 1]);
      ApplyKeepsGood(Run(Fresh<T>(n), actions[..|actions| - 1]), actions[|actions| - 1]);
    }
  }

  /** Of the writes of the key, `s` was made and none is later. */
  ghost predicate Newest(writes: set<Written>, key: string, s: Stamp) {
    && Written(key, s) in writes
    && (forall w :: w in writes && w.key == key ==> AtMost(w.stamp, s))
  }

  /** In every run a replica has a key exactly when the newest write of the key that reached it is an add. */
  lemma {:induction false} LiveIffNewestIsAdd<T>(n: nat, actions: seq<Action<T>>, i: nat, key: string)
    requires i < |Run(Fresh<T>(n), actions).replicas|
    ensures
      var r := Run(Fresh<T>(n), actions).replicas[i];
      Live(ViewOf(r.elements), key) <==>
      exists s: Stamp :: s.isAdd && Newest(r.seen, key, s)
  {
    RunExplained(n, actions);
    var r := Run(Fresh<T>(n), actions).replicas[i];
    var v := ViewOf(r.elements);
    if Live(v, key) {
      assert Newest(r.seen, key, v[key]);
    }
    if s: Stamp :| s.isAdd && Newest(r.seen, key, s) {
      assert AtMost(s, v[key]) && Written(key, v[key]) in r.seen;
      assert AtMost(Written(key, v[key]).stamp, s);
    }
  }

  /** A replica that makes a write newer than what it shows then shows that write. */
  lemma {:induction false} NewerWriteShows<T>(n: nat, actions: seq<Action<T>>, a: Action<T>)
    requires a.Put? && a.at < |Run(Fresh<T>(n), actions).replicas|
    ensures
      var s := Run(Fresh<T>(n), actions);
      var v, t := ViewOf(s.replicas[a.at].elements), Apply(s, a);
      && |t.replicas| == |s.replicas|
      && ViewOf(t.replicas[a.at].elements) ==
        if a.key in v && a.timestamp <= v[a.key].timestamp then v else v[a.key := Stamp(a.timestamp, a.isAdd)]
  {
    RunExplained(n, actions);
    var s := Run(Fresh<T>(n), actions);
    var e := Element(a.value, a.timestamp, map[a.node := 1], a.isAdd);
    WriteView(s.replicas[a.at].elements, a.key, e, a.node);
  }

  /** Strong eventual consistency: replicas reached by the same writes show the same view, in every run. */
  lemma {:induction false} SameHistorySameView<T>(n: nat, actions: seq<Action<T>>, i: nat, j: nat)
    requires i < |Run(Fresh<T>(n), actions).replicas| && j < |Run(Fresh<T>(n), actions).replicas|
    requires Run(Fresh<T>(n), actions).replicas[i].seen == Run(Fresh<T>(n), actions).replicas[j].seen
    ensures
      var rs := Run(Fresh<T>(n), actions).replicas;
      ViewOf(rs[i].elements) == ViewOf(rs[j].elements)
  {
    RunExplained(n, actions);
    var s := Run(Fresh<T>(n), actions);
    ExplainsUnique(s.replicas[i].seen, ViewOf(s.replicas[i].elements), ViewOf(s.replicas[j].elements));
  }

  /** The laws of `merge` on views hold between any states that meet in a run. */
  lemma {:induction false} ReachableMergeLaws<T>(n: nat, actions: seq<Action<T>>, i: nat, j: nat, k: nat)
    requires i < |Run(Fresh<T>(n), actions).replicas|
    requires j < |Run(Fresh<T>(n), actions).replicas|
    requires k < |Run(Fresh<T>(n), actions).replicas|
    ensures
      var rs := Run(Fresh<T>(n), actions).replicas;
      var a, b, c := rs[i].elements, rs[j].elements, rs[k].elements;
      && ViewOf(MergeElements(a, b)) == Join(ViewOf(a), ViewOf(b)) == ViewOf(MergeElements(b, a))
      && ViewOf(MergeElements(MergeElements(a, b), c)) == ViewOf(MergeElements(a, MergeElements(b, c)))
      && ViewOf(MergeElements(a, a)) == ViewOf(a)
  {
    RunExplained(n, actions);
    var rs := Run(Fresh<T>(n), actions).replicas;
    MergeLaws(rs[i].elements, rs[j].elements, rs[k].elements);
    MergeIsJoin(rs[i].elements, rs[j].elements);
  }

  // ---------- after updates stop ----------

  /** Nothing but exchanges from `s` on. */
  ghost function Deliver<T>(s: System<T>, gossip: seq<Exchange>): System<T> {
    if gossip == [] then s
    else Exchanged(Deliver(s, gossip[..|gossip| - 1]), gossip[|gossip| - 1])
  }

  /** The states present when updates stop, replicas first, then copies in flight. */
  function Origins<T>(s: System<T>): seq<Replica<T>> {
    s.replicas + s.copies
  }

  function HeardSince<T>(s: System<T>, gossip: seq<Exchange>): Heard {
    HearAll(HeardAtStart(|s.replicas|, |s.copies|), gossip)
  }

  function SeenBy<T>(origins: seq<Replica<T>>): set<Written> {
    if origins == [] then {} else SeenBy(origins[..|origins| - 1]) + origins[|origins| - 1].seen
  }

  function JoinOf<T>(origins: seq<Replica<T>>): View {
    if origins == [] then map[]
    else Join(JoinOf(origins[..|origins| - 1]), ViewOf(origins[|origins| - 1].elements))
  }

  ghost predicate KnowsExactly<T>(r: Replica<T>, heard: set<nat>, origins: seq<Replica<T>>) {
    && (forall o :: o in heard ==> o < |origins| && origins[o].seen <= r.seen)
    && (forall w :: w in r.seen ==> exists o :: o in heard && o < |origins| && w in origins[o].seen)
  }

  ghost predicate Tracks<T>(s: System<T>, h: Heard, origins: seq<Replica<T>>) {
    && |h.replicas| == |s.replicas| && |h.copies| == |s.copies|
    && (forall i :: 0 <= i < |s.replicas| ==> KnowsExactly(s.replicas[i], h.replicas[i], origins))
    && (forall c :: 0 <= c < |s.copies| ==> KnowsExactly(s.copies[c], h.copies[c], origins))
  }

  lemma {:induction false} GossipTracked<T>(s: System<T>, gossip: seq<Exchange>)
    requires AllGood(s)
    ensures Tracks(Deliver(s, gossip), HeardSince(s, gossip), Origins(s))
    ensures AllGood(Deliver(s, gossip))
  {
    if gossip == [] {
      var h := HeardSince(s, []);
      forall i | 0 <= i < |s.replicas| ensures KnowsExactly(s.replicas[i], h.replicas[i], Origins(s)) {
        assert Origins(s)[i] == s.replicas[i];
      }
      forall c | 0 <= c < |s.copies| ensures KnowsExactly(s.copies[c], h.copies[c], Origins(s)) {
        assert Origins(s)[|s.replicas| + c] == s.copies[c];
      }
    } else {
      var before, e := gossip[..|gossip| - 1], gossip[|gossip| - 1];
      GossipTracked(s, before);
      ExchangeKeepsGood(Deliver(s, before), e);
      HearTracks(Deliver(s, before), HeardSince(s, before), e, Origins(s));
    }
  }

  lemma {:induction false} HearTracks<T>(s: System<T>, h: Heard, e: Exchange, origins: seq<Replica<T>>)
    requires Tracks(s, h, origins)
    ensures Tracks(Exchanged(s, e), Hear(h, e), origins)
  {
  }

  lemma {:induction false} SeenByContains<T>(origins: seq<Replica<T>>, w: Written)
    ensures w in SeenBy(origins) <==> exists r :: r in origins && w in r.seen
  {
    if origins == [] {
    } else {
      var init, last := origins[..|origins| - 1], origins[|origins| - 1];
      SeenByContains(init, w);
      assert origins == init + [last];
      if r :| r in init && w in r.seen {
        assert r in origins;
      }
      if w in last.seen {
        assert last in origins;
      }
    }
  }

  lemma {:induction false} JoinOfExplained<T>(origins: seq<Replica<T>>)
    requires forall o :: 0 <= o < |origins| ==> Good(origins[o])
    ensures Explains(SeenBy(origins), JoinOf(origins))
  {
    if origins == [] {
    } else {
      var init, last := origins[..|origins| - 1], origins[|origins| - 1];
      JoinOfExplained(init);
      ExplainsJoin(SeenBy(init), JoinOf(init), last.seen, ViewOf(last.elements));
    }
  }

  /** A replica has seen what the states it heard of had seen, and nothing else. */
  lemma {:induction false} SeenOfHeard<T>(r: Replica<T>, heard: set<nat>, origins: seq<Replica<T>>)
    requires KnowsExactly(r, heard, origins)
    ensures r.seen == SeenBy(Chosen(origins, heard))
  {
    forall w ensures w in r.seen <==> w in SeenBy(Chosen(origins, heard)) {
      SeenByContains(Chosen(origins, heard), w);
      if w in r.seen {
        var o :| o in heard && o < |origins| && w in origins[o].seen;
        ChosenContains(origins, heard, origins[o]);
      }
      if w in SeenBy(Chosen(origins, heard)) {
        var q :| q in Chosen(origins, heard) && w in q.seen;
        ChosenContains(origins, heard, q);
      }
    }
  }

  lemma {:induction false} ViewOfHeard<T>(r: Replica<T>, heard: set<nat>, origins: seq<Replica<T>>)
    requires Good(r) && KnowsExactly(r, heard, origins)
    requires forall o :: 0 <= o < |origins| ==> Good(origins[o])
    ensures ViewOf(r.elements) == JoinOf(Chosen(origins, heard))
  {
    var chosen := Chosen(origins, heard);
    forall o | 0 <= o < |chosen| ensures Good(chosen[o]) {
      ChosenContains(origins, heard, chosen[o]);
    }
    SeenOfHeard(r, heard, origins);
    JoinOfExplained(chosen);
    ExplainsUnique(r.seen, ViewOf(r.elements), JoinOf(chosen));
  }

  /** After any run and any gossip a view is the join of exactly the states it has heard of. */
  lemma {:induction false} GossipExact<T>(n: nat, updates: seq<Action<T>>, gossip: seq<Exchange>, i: nat)
    requires i < |Run(Fresh<T>(n), updates).replicas|
    ensures
      var s := Run(Fresh<T>(n), updates);
      var t, heard := Deliver(s, gossip), HeardSince(s, gossip);
      && i < |t.replicas| && i < |heard.replicas| && i in heard.replicas[i]
      && ViewOf(t.replicas[i].elements) == JoinOf(Chosen(Origins(s), heard.replicas[i]))
  {
    var s := Run(Fresh<T>(n), updates);
    RunExplained(n, updates);
    GossipTracked(s, gossip);
    HearsItself(|s.replicas|, |s.copies|, gossip);
    ViewOfHeard(Deliver(s, gossip).replicas[i], HeardSince(s, gossip).replicas[i], Origins(s));
  }

  // ---------- convergence to the join of all replicas ----------

  lemma {:induction false} ViewOrder(u: View, v: View, w: View)
    ensures ViewAtMost(u, u)
    ensures ViewAtMost(u, v) && ViewAtMost(v, w) ==> ViewAtMost(u, w)
    ensures ViewAtMost(u, v) && ViewAtMost(v, u) ==> u == v
  {
  }

  ghost predicate AllWithin<T>(origins: seq<Replica<T>>, v: View) {
    forall r :: r in origins ==> ViewAtMost(ViewOf(r.elements), v)
  }

  /** The join of some states is the least view above all of them. */
  lemma {:induction false} JoinOfIsLub<T>(origins: seq<Replica<T>>, v: View)
    ensures ViewAtMost(JoinOf(origins), v) <==> AllWithin(origins, v)
  {
    if origins == [] {
    } else {
      var init, last := origins[..|origins| - 1], origins[|origins| - 1];
      JoinOfIsLub(init, v);
      JoinIsLub(JoinOf(init), ViewOf(last.elements), v);
      assert origins == init + [last];
      assert last in origins;
      if AllWithin(origins, v) {
        assert forall r :: r in init ==> r in origins;
      }
    }
  }

  /** Every old copy that was heard of shows nothing that the replicas together do not show. */
  ghost predicate CopiesWithin<T>(s: System<T>, heard: set<nat>) {
    forall c :: 0 <= c < |s.copies| && |s.replicas| + c in heard ==>
      ViewAtMost(ViewOf(s.copies[c].elements), JoinOf(s.replicas))
  }

  lemma {:induction false} HeardWithinIff<T>(s: System<T>, heard: set<nat>)
    ensures AllWithin(Chosen(Origins(s), heard), JoinOf(s.replicas)) <==> CopiesWithin(s, heard)
  {
    var chosen, all := Chosen(Origins(s), heard), JoinOf(s.replicas);
    JoinOfIsLub(s.replicas, all);
    ViewOrder(all, all, all);
    if CopiesWithin(s, heard) {
      forall r | r in chosen ensures ViewAtMost(ViewOf(r.elements), all) {
        ChosenContains(Origins(s), heard, r);
        var o :| o in heard && o < |Origins(s)| && Origins(s)[o] == r;
        if o < |s.replicas| {
          assert r in s.replicas;
        } else {
          assert r == s.copies[o - |s.replicas|];
        }
      }
    }
    if AllWithin(chosen, all) {
      forall c | 0 <= c < |s.copies| && |s.replicas| + c in heard
        ensures ViewAtMost(ViewOf(s.copies[c].elements), all)
      {
        assert Origins(s)[|s.replicas| + c] == s.copies[c];
        ChosenContains(Origins(s), heard, s.copies[c]);
      }
    }
  }

  lemma {:induction false} ReplicasWithin<T>(s: System<T>, heard: set<nat>)
    requires forall o :: 0 <= o < |s.replicas| ==> o in heard
    ensures ViewAtMost(JoinOf(s.replicas), JoinOf(Chosen(Origins(s), heard)))
  {
    var chosen := Chosen(Origins(s), heard);
    JoinOfIsLub(chosen, JoinOf(chosen));
    ViewOrder(JoinOf(chosen), JoinOf(chosen), JoinOf(chosen));
    forall r | r in s.replicas ensures ViewAtMost(ViewOf(r.elements), JoinOf(chosen)) {
      var o :| 0 <= o < |s.replicas| && s.replicas[o] == r;
      assert Origins(s)[o] == r;
      ChosenContains(Origins(s), heard, r);
    }
    JoinOfIsLub(s.replicas, JoinOf(chosen));
  }

  lemma {:induction false} OwnWithin<T>(s: System<T>, heard: set<nat>, i: nat)
    requires i < |s.replicas| && i in heard
    ensures ViewAtMost(ViewOf(s.replicas[i].elements), JoinOf(Chosen(Origins(s), heard)))
  {
    var chosen := Chosen(Origins(s), heard);
    JoinOfIsLub(chosen, JoinOf(chosen));
    ViewOrder(JoinOf(chosen), JoinOf(chosen), JoinOf(chosen));
    assert Origins(s)[i] == s.replicas[i];
    ChosenContains(Origins(s), heard, s.replicas[i]);
  }

  /**
   A view never goes back.  It stays within the join of all replicas, and a
   replica that has heard of every replica shows that join, exactly when no
   copy from before the updates stopped brings back something that the replicas
   no longer show.
   */
  lemma {:induction false} GossipConvergesIff<T>(n: nat, updates: seq<Action<T>>, gossip: seq<Exchange>, i: nat)
    requires i < |Run(Fresh<T>(n), updates).replicas|
    ensures
      var s := Run(Fresh<T>(n), updates);
      var t, heard, all := Deliver(s, gossip), HeardSince(s, gossip), JoinOf(s.replicas);
      && i < |t.replicas| && i < |heard.replicas|
      && var v := ViewOf(t.replicas[i].elements);
      && ViewAtMost(ViewOf(s.replicas[i].elements), v)
      && (ViewAtMost(v, all) <==> CopiesWithin(s, heard.replicas[i]))
      && ((forall o :: 0 <= o < |s.replicas| ==> o in heard.replicas[i]) ==>
            (v == all <==> CopiesWithin(s, heard.replicas[i])))
  {
    GossipExact(n, updates, gossip, i);
    var s := Run(Fresh<T>(n), updates);
    var heard := HeardSince(s, gossip).replicas[i];
    var v, all := JoinOf(Chosen(Origins(s), heard)), JoinOf(s.replicas);
    OwnWithin(s, heard, i);
    JoinOfIsLub(Chosen(Origins(s), heard), all);
    HeardWithinIff(s, heard);
    if forall o :: 0 <= o < |s.replicas| ==> o in heard {
      ReplicasWithin(s, heard);
      ViewOrder(v, all, v);
    }
  }

  predicate NoClear<T>(actions: seq<Action<T>>) {
    forall k :: 0 <= k < |actions| ==> !actions[k].Clear?
  }

  /** Every copy was taken from a replica that has forgotten nothing since. */
  ghost predicate Covered<T>(s: System<T>) {
    forall c :: 0 <= c < |s.copies| ==> CoveredBy(s, s.copies[c].seen)
  }

  ghost predicate CoveredBy<T>(s: System<T>, seen: set<Written>) {
    exists j :: 0 <= j < |s.replicas| && seen <= s.replicas[j].seen
  }

  ghost predicate Grows<T>(s: System<T>, t: System<T>) {
    |s.replicas| == |t.replicas| && forall j :: 0 <= j < |s.replicas| ==> s.replicas[j].seen <= t.replicas[j].seen
  }

  lemma {:induction false} CoveredStays<T>(s: System<T>, t: System<T>, seen: set<Written>)
    requires Grows(s, t) && CoveredBy(s, seen)
    ensures CoveredBy(t, seen)
  {
    var j :| 0 <= j < |s.replicas| && seen <= s.replicas[j].seen;
    assert seen <= t.replicas[j].seen;
  }

  lemma {:induction false} ApplyKeepsCovered<T>(s: System<T>, a: Action<T>)
    requires Covered(s) && !a.Clear?
    ensures Covered(Apply(s, a))
  {
    var t := Apply(s, a);
    assert Grows(s, t);
    forall c | 0 <= c < |t.copies| ensures CoveredBy(t, t.copies[c].seen) {
      if c < |s.copies| {
        CoveredStays(s, t, s.copies[c].seen);
      } else {
        assert t.copies[c].seen <= t.replicas[a.exchange.at].seen;
      }
    }
  }

  lemma {:induction false} RunCovered<T>(n: nat, actions: seq<Action<T>>)
    requires NoClear(actions)
    ensures Covered(Run(Fresh<T>(n), actions))
  {
    if actions == [] {
    } else {
      RunCovered(n, actions[..|actions| - 1]);
      ApplyKeepsCovered(Run(Fresh<T>(n), actions[..|actions| - 1]), actions[|actions| - 1]);
    }
  }

  lemma {:induction false} CoveredWithin<T>(s: System<T>, heard: set<nat>)
    requires AllGood(s) && Covered(s)
    ensures CopiesWithin(s, heard)
  {
    var all := JoinOf(s.replicas);
    JoinOfIsLub(s.replicas, all);
    ViewOrder(all, all, all);
    forall c | 0 <= c < |s.copies| ensures ViewAtMost(ViewOf(s.copies[c].elements), all) {
      assert CoveredBy(s, s.copies[c].seen);
      var j :| 0 <= j < |s.replicas| && s.copies[c].seen <= s.replicas[j].seen;
      var u, v := ViewOf(s.copies[c].elements), ViewOf(s.replicas[j].elements);
      ExplainsMonotone(s.copies[c].seen, u, s.replicas[j].seen, v);
      assert s.replicas[j] in s.replicas;
      ViewOrder(u, v, all);
    }
  }

  /**
   Convergence: if no set was cleared, or only copies sent after the updates
   stopped are received, a view stays between its own and the join of all
   replicas, and a replica that has heard of every replica, however
   indirectly, shows that join.
   */
  lemma {:induction false} GossipConverges<T>(n: nat, updates: seq<Action<T>>, gossip: seq<Exchange>, i: nat)
    requires i < |Run(Fresh<T>(n), updates).replicas|
    requires NoClear(updates) || ReceivesFrom(gossip, |Run(Fresh<T>(n), updates).copies|)
    ensures
      var s := Run(Fresh<T>(n), updates);
      var t, heard, all := Deliver(s, gossip), HeardSince(s, gossip), JoinOf(s.replicas);
      && i < |t.replicas| && i < |heard.replicas|
      && var v := ViewOf(t.replicas[i].elements);
      && ViewAtMost(ViewOf(s.replicas[i].elements), v)
      && ViewAtMost(v, all)
      && ((forall o :: 0 <= o < |s.replicas| ==> o in heard.replicas[i]) ==> v == all)
  {
    var s := Run(Fresh<T>(n), updates);
    var heard := HeardSince(s, gossip);
    GossipConvergesIff(n, updates, gossip, i);
    if NoClear(updates) {
      RunExplained(n, updates);
      RunCovered(n, updates);
      CoveredWithin(s, heard.replicas[i]);
    } else {
      HearsReplicasOnly(|s.replicas|, |s.copies|, gossip);
      assert Below(heard.replicas[i], |s.replicas|);
    }
  }

  /** Otherwise a copy from before a clear brings the cleared elements back. */
  lemma {:induction false} ClearedReturns(key: string, value: int, node: string, ts: int)
    ensures
      var updates := [Put(0, key, value, node, ts, true), Pass(Send(0)), Clear(0)];
      var s := Run(Fresh<int>(1), updates);
      var t := Deliver(s, [Receive(0, 0)]);
      && |s.replicas| == 1 && |t.replicas| == 1
      && JoinOf(s.replicas) == map[] && key in ViewOf(t.replicas[0].elements)
  {
    var put: Action<int> := Put(0, key, value, node, ts, true);
    var updates := [put, Pass(Send(0)), Clear(0)];
    assert updates[..2] == [put, Pass(Send(0))] && updates[..2][..1] == [put] && updates[..2][..1][..0] == [];
    var s0 := Fresh<int>(1);
    var s1 := Apply(s0, put);
    assert Run(s0, updates[..2][..1]) == s1;
    assert key in s1.replicas[0].elements;
    var s2 := Apply(s1, Pass(Send(0)));
    assert Run(s0, updates[..2]) == s2;
    var s := Apply(s2, Clear(0));
    assert Run(s0, updates) == s;
    assert s.replicas[..0] == [] && s.replicas[0] == Replica(map[], {});
    assert Join(map[], map[]) == map[];
    assert [Receive(0, 0)][..0] == [];
    assert Deliver(s, [Receive(0, 0)]) == Exchanged(s, Receive(0, 0));
  }
}

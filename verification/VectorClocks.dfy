/**
 Vector clocks: a map from node ids to 64-bit counters, where a missing node
 counts as zero.  The order on clocks is defined pointwise on the counters;
 the loops of `compare`, `equals` and `merge` are proved against it for every
 order in which the key set may be visited.
 */
module VectorClocks {

  const U64_MAX: nat := 0xFFFF_FFFF_FFFF_FFFF

  type u64 = x: nat | x <= U64_MAX

  type Clock = map<string, u64>

  function Counter(c: Clock, node: string): u64 {
    if node in c then c[node] else 0
  }

  ghost predicate Leq(a: Clock, b: Clock) {
    forall n: string :: Counter(a, n) <= Counter(b, n)
  }

  ghost predicate Same(a: Clock, b: Clock) {
    forall n: string :: Counter(a, n) == Counter(b, n)
  }

  /** The three-way result of `compare`, read off the pointwise order. */
  ghost function Order(a: Clock, b: Clock): int {
    if Leq(a, b) && !Leq(b, a) then -1
    else if Leq(b, a) && !Leq(a, b) then 1
    else 0
  }

  ghost predicate HappenedBefore(a: Clock, b: Clock) {
    Order(a, b) == -1
  }

  ghost predicate Concurrent(a: Clock, b: Clock) {
    Order(a, b) == 0 && !Same(a, b)
  }

  function Max(x: u64, y: u64): u64 {
    if x < y then y else x
  }

  function Merge(a: Clock, b: Clock): Clock {
    map n | n in a.Keys + b.Keys :: Max(Counter(a, n), Counter(b, n))
  }

  /** `*counter += 1` on a `u64` in a build without overflow checks. */
  function Bump(c: Clock, node: string): Clock {
    c[node := if Counter(c, node) == U64_MAX then 0 else Counter(c, node) + 1]
  }

  class VectorClock {
    var counters: Clock

    constructor New(node: string, initial: u64)
      ensures counters == map[node := initial]
    {
      counters := map[node := initial];
    }

    constructor Empty()
      ensures counters == map[]
    {
      counters := map[];
    }

    method Increment(node: string)
      modifies this
      ensures counters == Bump(old(counters), node)
    {
      var counter := if node in counters then counters[node] else 0;
      counters := counters[node := counter];
      counters := counters[node := if counter == U64_MAX then 0 else counter + 1];
    }
  }

  method MergeClocks(self: Clock, other: Clock) returns (merged: Clock)
    ensures merged == Merge(self, other)
  {
    merged := self;
    var todo := other.Keys;
    while todo != {}
      invariant todo <= other.Keys
      invariant merged.Keys == self.Keys + (other.Keys - todo)
      invariant forall n :: n in merged.Keys ==>
        merged[n] == if n in todo then self[n] else Max(Counter(self, n), Counter(other, n))
      decreases todo
    {
      var n :| n in todo;
      var entry := if n in merged then merged[n] else 0;
      merged := merged[n := Max(entry, other[n])];
      todo := todo - {n};
    }
  }

  method Compare(self: Clock, other: Clock) returns (r: int)
    ensures r == Order(self, other)
  {
    var less, greater := false, false;
    ghost var below: string, above: string := "", "";
    var all := self.Keys + other.Keys;
    var todo := all;
    while todo != {}
      invariant todo <= all
      invariant less ==> Counter(self, below) < Counter(other, below)
      invariant greater ==> Counter(self, above) > Counter(other, above)
      invariant !less ==> forall n :: n in all - todo ==> Counter(self, n) >= Counter(other, n)
      invariant !greater ==> forall n :: n in all - todo ==> Counter(self, n) <= Counter(other, n)
      decreases todo
    {
      var n :| n in todo;
      var c1, c2 := Counter(self, n), Counter(other, n);
      if c1 < c2 {
        less, below := true, n;
      } else if c1 > c2 {
        greater, above := true, n;
      }
      todo := todo - {n};
    }
    assert !less ==> Leq(other, self);
    assert !greater ==> Leq(self, other);
    r := if less && !greater then -1 else if greater && !less then 1 else 0;
  }

  method Equals(self: Clock, other: Clock) returns (r: bool)
    ensures r <==> Same(self, other)
  {
    var all := self.Keys + other.Keys;
    var todo := all;
    while todo != {}
      invariant todo <= all
      invariant forall n :: n in all - todo ==> Counter(self, n) == Counter(other, n)
      decreases todo
    {
      var n :| n in todo;
      if Counter(self, n) != Counter(other, n) {
        return false;
      }
      todo := todo - {n};
    }
    return true;
  }

  lemma {:induction false} OrderAntisymmetric(a: Clock, b: Clock)
    ensures Order(a, b) == -Order(b, a)
  {
  }

  /** `happened_before` is a strict partial order. */
  lemma {:induction false} HappenedBeforeStrictOrder(a: Clock, b: Clock, c: Clock)
    ensures !HappenedBefore(a, a)
    ensures HappenedBefore(a, b) ==> !HappenedBefore(b, a)
    ensures HappenedBefore(a, b) && HappenedBefore(b, c) ==> HappenedBefore(a, c)
  {
    if HappenedBefore(a, b) && HappenedBefore(b, c) {
      LeqTransitive(a, b, c);
      if Leq(c, a) {
        LeqTransitive(c, a, b);
      }
    }
  }

  lemma {:induction false} LeqTransitive(a: Clock, b: Clock, c: Clock)
    requires Leq(a, b) && Leq(b, c)
    ensures Leq(a, c)
  {
    forall n: string ensures Counter(a, n) <= Counter(c, n) {
      assert Counter(a, n) <= Counter(b, n) <= Counter(c, n);
    }
  }

  /** Exactly one of before, after, concurrent and equal holds of any two clocks. */
  lemma {:induction false} Quadrichotomy(a: Clock, b: Clock)
    ensures multiset{HappenedBefore(a, b), HappenedBefore(b, a), Concurrent(a, b), Same(a, b)}[true] == 1
  {
    SameIsMutualLeq(a, b);
  }

  lemma {:induction false} SameIsMutualLeq(a: Clock, b: Clock)
    ensures Same(a, b) <==> Leq(a, b) && Leq(b, a)
  {
    if Leq(a, b) && Leq(b, a) {
      forall n: string ensures Counter(a, n) == Counter(b, n) {
        assert Counter(a, n) <= Counter(b, n) && Counter(b, n) <= Counter(a, n);
      }
    }
  }

  /** `merge` is the least upper bound of its arguments. */
  lemma {:induction false} MergeIsLub(a: Clock, b: Clock, c: Clock)
    ensures Leq(a, Merge(a, b)) && Leq(b, Merge(a, b))
    ensures Leq(Merge(a, b), c) <==> Leq(a, c) && Leq(b, c)
  {
    assert forall n: string :: Counter(Merge(a, b), n) == Max(Counter(a, n), Counter(b, n));
    if Leq(Merge(a, b), c) {
      forall n: string ensures Counter(a, n) <= Counter(c, n) && Counter(b, n) <= Counter(c, n) {
        assert Counter(Merge(a, b), n) <= Counter(c, n);
      }
    }
  }

  /** As maps, not only as orders, merged clocks do not depend on the order of merging. */
  lemma {:induction false} ClockLaws(a: Clock, b: Clock, c: Clock)
    ensures Merge(a, b) == Merge(b, a)
    ensures Merge(a, Merge(b, c)) == Merge(Merge(a, b), c)
    ensures Merge(a, a) == a
  {
    ClocksAssociate(a, b, c);
  }

  lemma {:induction false} ClocksAssociate(a: Clock, b: Clock, c: Clock)
    ensures Merge(a, Merge(b, c)) == Merge(Merge(a, b), c)
  {
    var l, r := Merge(a, Merge(b, c)), Merge(Merge(a, b), c);
    assert l.Keys == r.Keys;
    forall n | n in l ensures l[n] == r[n] {
      MergedCounter(a, b, n);
      MergedCounter(b, c, n);
      MergedCounter(a, Merge(b, c), n);
      MergedCounter(Merge(a, b), c, n);
    }
  }

  lemma {:induction false} MergedCounter(a: Clock, b: Clock, n: string)
    ensures Counter(Merge(a, b), n) == Max(Counter(a, n), Counter(b, n))
  {
  }

  /** `increment` moves a clock strictly forward exactly when the counter is not saturated. */
  lemma {:induction false} BumpAdvancesIff(c: Clock, node: string)
    ensures HappenedBefore(c, Bump(c, node)) <==> Counter(c, node) < 0xFFFF_FFFF_FFFF_FFFF
    ensures Counter(c, node) == 0xFFFF_FFFF_FFFF_FFFF ==> HappenedBefore(Bump(c, node), c)
  {
    var d := Bump(c, node);
    assert forall n: string :: n != node ==> Counter(d, n) == Counter(c, n);
    assert Counter(d, node) == if Counter(c, node) == U64_MAX then 0 else Counter(c, node) + 1;
  }

  /** No clock lies strictly between a clock and its increment. */
  lemma {:induction false} BumpIsNext(c: Clock, node: string, d: Clock)
    requires Counter(c, node) < U64_MAX && HappenedBefore(c, d) && Leq(d, Bump(c, node))
    ensures Same(d, Bump(c, node))
  {
    var e := Bump(c, node);
    assert Counter(e, node) == Counter(c, node) + 1;
    forall n: string ensures n != node ==> Counter(d, n) == Counter(c, n) {
      assert Counter(c, n) <= Counter(d, n) <= Counter(e, n);
    }
    assert Counter(c, node) <= Counter(d, node) <= Counter(e, node);
    var n: string :| Counter(d, n) > Counter(c, n);
    assert n == node;
  }
}

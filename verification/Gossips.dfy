/**
 Replicas exchanging copies of their state, whatever the state is.  A copy is
 taken at some moment and may be merged later, repeatedly, anywhere or never.
 `Heard` keeps, for every replica and copy, the states present at the start
 that reached it through chains of exchanges: first the replicas' own, then
 those of the copies in flight.
 */
module Gossips {
  datatype Exchange =
    | Send(at: nat)
    | Receive(at: nat, copy: nat)

  datatype Heard = Heard(replicas: seq<set<nat>>, copies: seq<set<nat>>)

  function HeardAtStart(replicas: nat, copies: nat): Heard {
    Heard(seq(replicas, i => {i}), seq(copies, c => {replicas + c}))
  }

  function Hear(h: Heard, e: Exchange): Heard {
    if e.at >= |h.replicas| then h
    else
      match e
      case Send(i) => h.(copies := h.copies + [h.replicas[i]])
      case Receive(i, c) =>
        if c >= |h.copies| then h else h.(replicas := h.replicas[i := h.replicas[i] + h.copies[c]])
  }

  function HearAll(h: Heard, exchanges: seq<Exchange>): Heard {
    if exchanges == [] then h
    else Hear(HearAll(h, exchanges[..|exchanges| - 1]), exchanges[|exchanges| - 1])
  }

  lemma {:induction false} HearsItself(replicas: nat, copies: nat, exchanges: seq<Exchange>)
    ensures |HearAll(HeardAtStart(replicas, copies), exchanges).replicas| == replicas
    ensures forall i :: 0 <= i < replicas ==> i in HearAll(HeardAtStart(replicas, copies), exchanges).replicas[i]
  {
    if exchanges == [] {
    } else {
      HearsItself(replicas, copies, exchanges[..|exchanges| - 1]);
    }
  }

  /** Only copies from number `k` on are received. */
  predicate ReceivesFrom(exchanges: seq<Exchange>, k: nat) {
    forall j :: 0 <= j < |exchanges| && exchanges[j].Receive? ==> exchanges[j].copy >= k
  }

  predicate Below(heard: set<nat>, n: nat) {
    forall o :: o in heard ==> o < n
  }

  /** Who receives no copy from before the start hears of replicas only. */
  lemma {:induction false} HearsReplicasOnly(replicas: nat, copies: nat, exchanges: seq<Exchange>)
    requires ReceivesFrom(exchanges, copies)
    ensures
      var h := HearAll(HeardAtStart(replicas, copies), exchanges);
      && |h.replicas| == replicas && |h.copies| >= copies
      && (forall i :: 0 <= i < replicas ==> Below(h.replicas[i], replicas))
      && (forall c :: copies <= c < |h.copies| ==> Below(h.copies[c], replicas))
  {
    if exchanges == [] {
    } else {
      HearsReplicasOnly(replicas, copies, exchanges[..|exchanges| - 1]);
    }
  }

  /** The members of `origins` at the indices in `heard`, in order. */
  function Chosen<T>(origins: seq<T>, heard: set<nat>): seq<T> {
    if origins == [] then []
    else
      Chosen(origins[..|origins| - 1], heard)
      + if |origins| - 1 in heard then [origins[|origins| - 1]] else []
  }

  lemma {:induction false} ChosenContains<T>(origins: seq<T>, heard: set<nat>, x: T)
    ensures x in Chosen(origins, heard) <==> exists o :: o in heard && o < |origins| && origins[o] == x
  {
    if origins == [] {
    } else {
      var init, last := origins[..|origins| - 1], |origins| - 1;
      ChosenContains(init, heard, x);
      if o :| o in heard && o < |origins| && origins[o] == x {
        assert o < last ==> init[o] == x;
      }
      if o :| o in heard && o < |init| && init[o] == x {
        assert origins[o] == x;
      }
    }
  }
}

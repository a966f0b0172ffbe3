/**
 The store-and-forward mesh of gate scanners.  A scanner's log is read by a
 peer at one moment and merged at a later one; a batch posted to the gateway is
 answered, or not, after the log has moved on.
 */
module BleMesh {

  const MAX_GOSSIP_HOPS: nat := 6

  datatype CheckIn = CheckIn(recordId: string, ticketId: string, gateId: string, scannerId: string,
                             approved: bool, scannedAt: int, hops: nat)

  type Log = map<string, CheckIn>

  // ---------- one scanner ----------

  /** A record of a known id or at the hop limit is passed over; another is taken, one hop further. */
  function TakeOne(log: Log, r: CheckIn): Log {
    if r.recordId in log || r.hops >= MAX_GOSSIP_HOPS then log else log[r.recordId := r.(hops := r.hops + 1)]
  }

  /** `mergeIncoming`. */
  function MergeIncoming(log: Log, records: seq<CheckIn>): Log
    decreases |records|
  {
    if records == [] then log else MergeIncoming(TakeOne(log, records[0]), records[1..])
  }

  /** What a scanner may hold: every record under its own id. */
  ghost predicate Keyed(log: Log) {
    forall id :: id in log ==> log[id].recordId == id
  }

  ghost predicate Lists(records: seq<CheckIn>, log: Log) {
    && (forall r :: r in records <==> r.recordId in log && log[r.recordId] == r)
    && (forall i, j :: 0 <= i < j < |records| ==> records[i].recordId != records[j].recordId)
  }

  class Scanner {
    const scannerId: string
    var log: Log
    var handledThisTick: set<string>

    constructor (scannerId: string)
      ensures this.scannerId == scannerId && log == map[] && handledThisTick == {}
    {
      this.scannerId := scannerId;
      log, handledThisTick := map[], {};
    }

    /** `recordId` is the scanner, ticket and time joined; it is `id` here. */
    method RecordCheckIn(id: string, ticketId: string, gateId: string, approved: bool, now: int)
      modifies this`log
      ensures log == old(log)[id := CheckIn(id, ticketId, gateId, scannerId, approved, now, 0)]
    {
      var record := CheckIn(id, ticketId, gateId, scannerId, approved, now, 0);
      log := log[record.recordId := record];
    }

    /** A peer is pulled at most once between two ticks. */
    method OnPeerDiscovered(device: string) returns (pull: bool)
      modifies this`handledThisTick
      ensures pull <==> device !in old(handledThisTick)
      ensures handledThisTick == old(handledThisTick) + {device}
    {
      if device in handledThisTick {
        return false;
      }
      handledThisTick := handledThisTick + {device};
      return true;
    }

    method Merge(records: seq<CheckIn>)
      modifies this`log
      ensures log == MergeIncoming(old(log), records)
    {
      for i := 0 to |records|
        invariant MergeIncoming(log, records[i..]) == MergeIncoming(old(log), records)
      {
        var record := records[i];
        if record.recordId !in log && record.hops < MAX_GOSSIP_HOPS {
          log := log[record.recordId := record.(hops := record.hops + 1)];
        }
      }
    }

    /** `serializeLog` and the batch of a flush: the values of the log. */
    method Records() returns (records: seq<CheckIn>)
      requires Keyed(log)
      ensures Lists(records, log)
    {
      records := [];
      var todo := log.Keys;
      while todo != {}
        invariant todo <= log.Keys
        invariant forall r :: r in records <==> r.recordId in log && r.recordId !in todo && log[r.recordId] == r
        invariant forall i, j :: 0 <= i < j < |records| ==> records[i].recordId != records[j].recordId
        decreases todo
      {
        var id :| id in todo;
        assert log[id] !in records;
        forall r | r in records ensures r.recordId != id {
        }
        records := records + [log[id]];
        todo := todo - {id};
      }
    }

    method GossipTick()
      modifies this`handledThisTick
      ensures handledThisTick == {}
    {
      handledThisTick := {};
    }

    method Flushed(ids: seq<string>)
      modifies this`log
      ensures forall id :: id in log <==> id in old(log) && id !in ids
      ensures forall id :: id in log ==> log[id] == old(log)[id]
    {
      for i := 0 to |ids|
        invariant forall id :: id in log <==> id in old(log) && id !in ids[..i]
        invariant forall id :: id in log ==> log[id] == old(log)[id]
      {
        log := log - {ids[i]};
      }
    }
  }

  // ---------- the mesh ----------

  /** One record taken from one scanner by another. */
  datatype Delivery = Delivery(recordId: string, source: string, dest: string)

  datatype Snapshot = Snapshot(source: string, records: seq<CheckIn>)

  /** A posted batch, and the ids the gateway has accepted from it so far. */
  datatype Batch = Batch(source: string, records: seq<CheckIn>, accepted: set<string>)

  /**
   `made` keeps every check-in as it was first recorded, `history` the
   deliveries of every merge, oldest first; the scanners read neither.
   */
  datatype Mesh = Mesh(logs: map<string, Log>, snapshots: seq<Snapshot>, batches: seq<Batch>,
                       accepted: set<CheckIn>, made: map<string, CheckIn>, history: seq<set<Delivery>>)

  datatype Step =
    | Record(at: string, id: string, ticketId: string, gateId: string, approved: bool, now: int)
    | Read(at: string, records: seq<CheckIn>)
    | Merge(at: string, snapshot: nat)
    | Post(at: string, records: seq<CheckIn>)
    | Accept(batch: nat, ids: set<string>)
    | Acknowledge(batch: nat)

  /**
   What can happen next.  Record ids are unique, a read or a batch lists the
   log at that moment, and the gateway accepts only what a batch contains.
   */
  ghost predicate Enabled(m: Mesh, s: Step) {
    match s
    case Record(at, id, _, _, _, _) => at in m.logs && id !in m.made
    case Read(at, records) => at in m.logs && Lists(records, m.logs[at])
    case Merge(at, n) => at in m.logs && n < |m.snapshots|
    case Post(at, records) => at in m.logs && Lists(records, m.logs[at])
    case Accept(n, ids) =>
      n < |m.batches| && forall id :: id in ids ==> exists r :: r in m.batches[n].records && r.recordId == id
    case Acknowledge(n) => n < |m.batches| && m.batches[n].source in m.logs
  }

  ghost function Apply(m: Mesh, s: Step): Mesh {
    if !Enabled(m, s) then m else
    match s
    case Record(at, id, ticketId, gateId, approved, now) =>
      var r := CheckIn(id, ticketId, gateId, at, approved, now, 0);
      m.(logs := m.logs[at := m.logs[at][id := r]], made := m.made[id := r])
    case Read(at, records) => m.(snapshots := m.snapshots + [Snapshot(at, records)])
    case Merge(at, n) =>
      var after := MergeIncoming(m.logs[at], m.snapshots[n].records);
      m.(logs := m.logs[at := after], history := m.history + [Taken(m.logs[at], after, m.snapshots[n].source, at)])
    case Post(at, records) => m.(batches := m.batches + [Batch(at, records, {})])
    case Accept(n, ids) =>
      var b := m.batches[n];
      m.(batches := m.batches[n := b.(accepted := b.accepted + ids)],
         accepted := m.accepted + set r | r in b.records && r.recordId in ids)
    case Acknowledge(n) =>
      var b := m.batches[n];
      m.(logs := m.logs[b.source := m.logs[b.source] - b.accepted])
  }

  function Taken(before: Log, after: Log, source: string, dest: string): set<Delivery> {
    set id | id in after.Keys - before.Keys :: Delivery(id, source, dest)
  }

  ghost function Run(scanners: set<string>, steps: seq<Step>): Mesh {
    if steps == [] then Mesh(map s | s in scanners :: map[], [], [], {}, map[], [])
    else Apply(Run(scanners, steps[..|steps| - 1]), steps[|steps| - 1])
  }

  // ---------- provenance ----------

  /**
   A chain of exactly `h` deliveries, each in an earlier merge than the next,
   from `creator` to `holder`, all before merge number `upTo`.
   */
  ghost predicate Chain(history: seq<set<Delivery>>, id: string, creator: string, holder: string, h: nat, upTo: nat)
    requires upTo <= |history|
    decreases h
  {
    if h == 0 then holder == creator
    else exists i: nat, source: string ::
      i < upTo && Delivery(id, source, holder) in history[i] && Chain(history, id, creator, source, h - 1, i)
  }

  /** `r`, held by or sent from `holder`, is an original check-in that came there by a chain of `r.hops` pulls. */
  ghost predicate Genuine(m: Mesh, r: CheckIn, holder: string) {
    && r.recordId in m.made
    && r.(hops := 0) == m.made[r.recordId]
    && r.hops <= 6
    && Chain(m.history, r.recordId, m.made[r.recordId].scannerId, holder, r.hops, |m.history|)
  }

  ghost predicate AllGenuine(m: Mesh, records: seq<CheckIn>, holder: string) {
    forall r :: r in records ==> Genuine(m, r, holder)
  }

  ghost predicate GenuineLog(m: Mesh, log: Log, holder: string) {
    forall id :: id in log ==> log[id].recordId == id && Genuine(m, log[id], holder)
  }

  ghost predicate Provenance(m: Mesh) {
    && (forall s :: s in m.logs ==> GenuineLog(m, m.logs[s], s))
    && (forall n :: 0 <= n < |m.snapshots| ==> AllGenuine(m, m.snapshots[n].records, m.snapshots[n].source))
    && (forall n :: 0 <= n < |m.batches| ==> AllGenuine(m, m.batches[n].records, m.batches[n].source))
    && (forall r :: r in m.accepted ==> r.recordId in m.made && r.(hops := 0) == m.made[r.recordId])
  }

  ghost predicate Accepted(m: Mesh, id: string) {
    exists r :: r in m.accepted && r.recordId == id
  }

  /** Every check-in is still in its creator's log or has reached the gateway. */
  ghost predicate NoLoss(m: Mesh) {
    && (forall id :: id in m.made ==> m.made[id].recordId == id && m.made[id].scannerId in m.logs)
    && (forall id :: id in m.made ==> id in m.logs[m.made[id].scannerId] || Accepted(m, id))
    && (forall n, id :: 0 <= n < |m.batches| && id in m.batches[n].accepted ==> Accepted(m, id))
  }

  lemma {:induction false} ChainExtends(history: seq<set<Delivery>>, more: seq<set<Delivery>>,
                                        id: string, creator: string, holder: string, h: nat, upTo: nat, upTo': nat)
    requires upTo <= |history| && upTo <= upTo' <= |history + more|
    requires Chain(history, id, creator, holder, h, upTo)
    ensures Chain(history + more, id, creator, holder, h, upTo')
    decreases h
  {
    if h == 0 {
    } else {
      var i: nat, source: string :|
        i < upTo && Delivery(id, source, holder) in history[i] && Chain(history, id, creator, source, h - 1, i);
      ChainExtends(history, more, id, creator, source, h - 1, i, i);
      assert Delivery(id, source, holder) in (history + more)[i];
    }
  }

  /** What stays true of a genuine record while the mesh moves on. */
  lemma {:induction false} GenuineStays(m: Mesh, m': Mesh, r: CheckIn, holder: string)
    requires Genuine(m, r, holder)
    requires m.history <= m'.history && forall id :: id in m.made ==> id in m'.made && m'.made[id] == m.made[id]
    ensures Genuine(m', r, holder)
  {
    var more := m'.history[|m.history|..];
    assert m'.history == m.history + more;
    ChainExtends(m.history, more, r.recordId, m.made[r.recordId].scannerId, holder, r.hops, |m.history|, |m'.history|);
  }

  /** What merging may do to a log: keep all of it, add incoming records one hop further, and miss none it may take. */
  ghost predicate Adds(log: Log, records: seq<CheckIn>, after: Log) {
    && (forall id :: id in log ==> id in after && after[id] == log[id])
    && (forall id :: id in after && id !in log ==> Adopted(records, id, after[id]))
    && (forall r :: r in records && r.hops < 6 ==> r.recordId in after)
  }

  ghost predicate Adopted(records: seq<CheckIn>, id: string, held: CheckIn) {
    exists r :: r in records && r.recordId == id && r.hops < 6 && held == r.(hops := r.hops + 1)
  }

  lemma {:induction false} MergeAdds(log: Log, records: seq<CheckIn>)
    ensures Adds(log, records, MergeIncoming(log, records))
    decreases |records|
  {
    if records == [] {
    } else {
      MergeAdds(TakeOne(log, records[0]), records[1..]);
      AddsFirst(log, records[0], records[1..], MergeIncoming(log, records));
      assert records == [records[0]] + records[1..];
    }
  }

  lemma {:induction false} AddsFirst(log: Log, r: CheckIn, rest: seq<CheckIn>, after: Log)
    requires Adds(TakeOne(log, r), rest, after)
    ensures Adds(log, [r] + rest, after)
  {
    forall id | id in after && id !in log ensures Adopted([r] + rest, id, after[id]) {
      if id in TakeOne(log, r) {
        assert r in [r] + rest;
      } else {
        var q :| q in rest && q.recordId == id && q.hops < 6 && after[id] == q.(hops := q.hops + 1);
        assert q in [r] + rest;
      }
    }
  }

  lemma {:induction false} TakenIsGenuine(m: Mesh, m': Mesh, r: CheckIn, source: string, dest: string,
                                          taken: set<Delivery>)
    requires Genuine(m, r, source) && r.hops < 6
    requires m'.made == m.made && m'.history == m.history + [taken] && Delivery(r.recordId, source, dest) in taken
    ensures Genuine(m', r.(hops := r.hops + 1), dest)
  {
    var i: nat := |m.history|;
    ChainExtends(m.history, [taken], r.recordId, m.made[r.recordId].scannerId, source, r.hops, i, i);
    assert Delivery(r.recordId, source, dest) in m'.history[i];
  }

  lemma {:induction false} MergedLogGenuine(m: Mesh, m': Mesh, at: string, source: string, records: seq<CheckIn>)
    requires at in m.logs && GenuineLog(m, m.logs[at], at) && AllGenuine(m, records, source)
    requires m'.made == m.made
    requires m'.history == m.history + [Taken(m.logs[at], MergeIncoming(m.logs[at], records), source, at)]
    ensures GenuineLog(m', MergeIncoming(m.logs[at], records), at)
  {
    var log := m.logs[at];
    var after := MergeIncoming(log, records);
    MergeAdds(log, records);
    forall id | id in after ensures after[id].recordId == id && Genuine(m', after[id], at) {
      if id in log {
        GenuineStays(m, m', log[id], at);
      } else {
        var r :| r in records && r.recordId == id && r.hops < 6 && after[id] == r.(hops := r.hops + 1);
        TakenIsGenuine(m, m', r, source, at, Taken(log, after, source, at));
      }
    }
  }

  /** Everything already logged or in flight stays genuine across a step. */
  lemma {:induction false} OldStaysGenuine(m: Mesh, m': Mesh)
    requires Provenance(m)
    requires m.history <= m'.history && forall id :: id in m.made ==> id in m'.made && m'.made[id] == m.made[id]
    ensures forall s :: s in m.logs ==> GenuineLog(m', m.logs[s], s)
    ensures forall n :: 0 <= n < |m.snapshots| ==> AllGenuine(m', m.snapshots[n].records, m.snapshots[n].source)
    ensures forall n :: 0 <= n < |m.batches| ==> AllGenuine(m', m.batches[n].records, m.batches[n].source)
  {
    forall s, id | s in m.logs && id in m.logs[s] ensures Genuine(m', m.logs[s][id], s) {
      GenuineStays(m, m', m.logs[s][id], s);
    }
    forall n, r | 0 <= n < |m.snapshots| && r in m.snapshots[n].records ensures Genuine(m', r, m.snapshots[n].source) {
      GenuineStays(m, m', r, m.snapshots[n].source);
    }
    forall n, r | 0 <= n < |m.batches| && r in m.batches[n].records ensures Genuine(m', r, m.batches[n].source) {
      GenuineStays(m, m', r, m.batches[n].source);
    }
  }

  lemma {:induction false} ApplyKeepsProvenance(m: Mesh, s: Step)
    requires Provenance(m)
    ensures Provenance(Apply(m, s))
  {
    if Enabled(m, s) {
      OldStaysGenuine(m, Apply(m, s));
      if s.Merge? {
        MergeKeepsProvenance(m, s);
      }
    }
  }

  lemma {:induction false} MergeKeepsProvenance(m: Mesh, s: Step)
    requires Provenance(m) && s.Merge? && Enabled(m, s)
    ensures Provenance(Apply(m, s))
  {
    var m' := Apply(m, s);
    OldStaysGenuine(m, m');
    MergedLogGenuine(m, m', s.at, m.snapshots[s.snapshot].source, m.snapshots[s.snapshot].records);
  }

  lemma {:induction false} AcceptedStays(m: Mesh, m': Mesh, id: string)
    requires Accepted(m, id) && m.accepted <= m'.accepted
    ensures Accepted(m', id)
  {
  }

  lemma {:induction false} ApplyKeepsAll(m: Mesh, s: Step)
    requires NoLoss(m)
    ensures NoLoss(Apply(m, s))
  {
    if Enabled(m, s) {
      var m' := Apply(m, s);
      forall id | Accepted(m, id) ensures Accepted(m', id) {
        AcceptedStays(m, m', id);
      }
      match s
      case Record(at, id, _, _, _, _) =>
      case Read(at, records) =>
      case Merge(at, n) =>
        MergeAdds(m.logs[at], m.snapshots[n].records);
      case Post(at, records) =>
      case Accept(n, ids) =>
        forall id | id in ids ensures Accepted(m', id) {
          var r :| r in m.batches[n].records && r.recordId == id;
          assert r in m'.accepted;
        }
      case Acknowledge(n) =>
    }
  }

  /** No check-in is ever lost, whatever the order of reads, merges, posts, lost answers and acknowledgements. */
  lemma {:induction false} MeshLosesNothing(scanners: set<string>, steps: seq<Step>)
    ensures NoLoss(Run(scanners, steps))
  {
    if steps == [] {
    } else {
      MeshLosesNothing(scanners, steps[..|steps| - 1]);
      ApplyKeepsAll(Run(scanners, steps[..|steps| - 1]), steps[|steps| - 1]);
    }
  }

  /** Every logged, in-flight or accepted record is an original, and its hop count is the length of its way here. */
  lemma {:induction false} MeshProvenance(scanners: set<string>, steps: seq<Step>)
    ensures Provenance(Run(scanners, steps))
  {
    if steps == [] {
    } else {
      MeshProvenance(scanners, steps[..|steps| - 1]);
      ApplyKeepsProvenance(Run(scanners, steps[..|steps| - 1]), steps[|steps| - 1]);
    }
  }

  /** Whatever has happened before, a peer that reads a log and merges it has every record below the hop limit. */
  lemma {:induction false} PullSpreads(scanners: set<string>, steps: seq<Step>, source: string, dest: string,
                                       records: seq<CheckIn>, id: string)
    requires
      var m := Run(scanners, steps);
      && source in m.logs && dest in m.logs && Lists(records, m.logs[source])
      && id in m.logs[source] && m.logs[source][id].hops < 6
    ensures
      var m := Run(scanners, steps);
      var m' := Run(scanners, steps + [Read(source, records), Merge(dest, |m.snapshots|)]);
      dest in m'.logs && id in m'.logs[dest]
  {
    var m := Run(scanners, steps);
    RunTwo(scanners, steps, Read(source, records), Merge(dest, |m.snapshots|));
    MeshProvenance(scanners, steps);
    assert m.logs[source][id] in records;
    ReadThenMerge(m, source, dest, records, m.logs[source][id]);
  }

  lemma {:induction false} ReadThenMerge(m: Mesh, source: string, dest: string, records: seq<CheckIn>, r: CheckIn)
    requires source in m.logs && dest in m.logs && Lists(records, m.logs[source]) && r in records && r.hops < 6
    ensures
      var m' := Apply(Apply(m, Read(source, records)), Merge(dest, |m.snapshots|));
      dest in m'.logs && r.recordId in m'.logs[dest]
  {
    var read := Apply(m, Read(source, records));
    assert read.snapshots[|m.snapshots|] == Snapshot(source, records);
    MergeAdds(m.logs[dest], records);
  }

  lemma {:induction false} RunTwo(scanners: set<string>, steps: seq<Step>, s: Step, t: Step)
    ensures Run(scanners, steps + [s, t]) == Apply(Apply(Run(scanners, steps), s), t)
  {
    assert steps + [s, t] == (steps + [s]) + [t];
    assert (steps + [s])[..|steps|] == steps;
    assert ((steps + [s]) + [t])[..|steps + [s]|] == steps + [s];
  }

  /** An acknowledged batch leaves the scanner's log for the gateway, and nothing else does. */
  lemma {:induction false} AcknowledgedIsDelivered(scanners: set<string>, steps: seq<Step>, n: nat)
    requires
      var m := Run(scanners, steps);
      n < |m.batches| && m.batches[n].source in m.logs
    ensures
      var m, m' := Run(scanners, steps), Run(scanners, steps + [Acknowledge(n)]);
      var b := m.batches[n];
      && b.source in m'.logs && m'.accepted == m.accepted
      && (forall id :: id in m.logs[b.source] && id !in m'.logs[b.source] ==> Accepted(m', id))
      && (forall id :: id in b.accepted ==> id !in m'.logs[b.source] && Accepted(m', id))
      && (forall s :: s in m.logs && s != b.source ==> s in m'.logs && m'.logs[s] == m.logs[s])
  {
    var m := Run(scanners, steps);
    assert (steps + [Acknowledge(n)])[..|steps|] == steps;
    MeshLosesNothing(scanners, steps);
    forall id | id in m.batches[n].accepted ensures Accepted(Apply(m, Acknowledge(n)), id) {
      AcceptedStays(m, Apply(m, Acknowledge(n)), id);
    }
  }

  /** What the gateway takes of a batch counts as accepted, with the records as they were posted. */
  lemma {:induction false} PostedIsAccepted(scanners: set<string>, steps: seq<Step>, source: string,
                                            records: seq<CheckIn>, r: CheckIn)
    requires
      var m := Run(scanners, steps);
      source in m.logs && Lists(records, m.logs[source]) && r in records
    ensures
      var n := |Run(scanners, steps).batches|;
      var m' := Run(scanners, steps + [Post(source, records), Accept(n, {r.recordId})]);
      && r in m'.accepted && n < |m'.batches|
      && m'.batches[n].source == source && r.recordId in m'.batches[n].accepted
  {
    var m := Run(scanners, steps);
    RunTwo(scanners, steps, Post(source, records), Accept(|m.batches|, {r.recordId}));
    assert Apply(m, Post(source, records)).batches[|m.batches|] == Batch(source, records, {});
  }
}

/**
 The offline gate scanner: a key map, and a log of the tickets it has admitted.
 */
module OfflineScanners {
  import opened Wrappers
  import opened DataViews
  import opened Base64Url
  import opened TicketPayloads

  datatype ScanRecord = ScanRecord(ticketId: Bytes, scannedAtS: int, payloadTimestampS: nat)

  datatype Outcome =
    | Valid(record: ScanRecord)
    | AlreadyScanned(record: ScanRecord)
    | InvalidSignature(ticketId: Bytes)
    | ExpiredTimestamp(ticketId: Bytes)
    | UnknownTicket(ticketId: Bytes)
    | BadPayload
    | Throws(ticketId: Bytes)

  type Keys = map<Bytes, Bytes>

  type ScanLog = map<Bytes, ScanRecord>

  /** Steps 1 to 3 of a scan, before the log is looked at: a refusal, or the record to be written. */
  function Admit(scheme: Scheme, keys: Keys, encoded: string, nowMs: int): Result<ScanRecord, Outcome> {
    match Parse(encoded)
    case Err(_) => Err(Outcome.BadPayload)
    case Ok(p) =>
      if p.ticketId !in keys then Err(UnknownTicket(p.ticketId))
      else
        match Verify(scheme, encoded, keys[p.ticketId], nowMs)
        case Accepted(_, _) => Ok(ScanRecord(p.ticketId, nowMs / 1000, p.timestampS))
        case InvalidSignature => Err(Outcome.InvalidSignature(p.ticketId))
        case ExpiredTimestamp => Err(Outcome.ExpiredTimestamp(p.ticketId))
        case KeyRejected => Err(Throws(p.ticketId))
        case BadPayload => Err(Outcome.BadPayload)
  }

  function ScanOutcome(scheme: Scheme, keys: Keys, log: ScanLog, encoded: string, nowMs: int): Outcome {
    match Admit(scheme, keys, encoded, nowMs)
    case Err(o) => o
    case Ok(r) => if r.ticketId in log then AlreadyScanned(log[r.ticketId]) else Valid(r)
  }

  function Logged(log: ScanLog, o: Outcome): ScanLog {
    if o.Valid? then log[o.record.ticketId := o.record] else log
  }

  class OfflineScanner {
    const scheme: Scheme
    var publicKeys: Keys
    var records: ScanLog

    constructor (scheme: Scheme, keyMap: map<Bytes, string>)
      ensures this.scheme == scheme && records == map[]
      ensures publicKeys == map id | id in keyMap :: Decode(keyMap[id])
    {
      this.scheme := scheme;
      records := map[];
      var keys: Keys := map[];
      var todo := keyMap.Keys;
      while todo != {}
        invariant todo <= keyMap.Keys
        invariant keys.Keys == keyMap.Keys - todo
        invariant forall id :: id in keys ==> keys[id] == Decode(keyMap[id])
        decreases todo
      {
        var id :| id in todo;
        var key := FromBase64Url(keyMap[id]);
        keys := keys[id := key];
        todo := todo - {id};
      }
      publicKeys := keys;
    }

    /** A scan that is awaited before anything else happens. */
    method Scan(encoded: string, nowMs: int) returns (outcome: Outcome)
      modifies this`records
      ensures outcome == ScanOutcome(scheme, publicKeys, old(records), encoded, nowMs)
      ensures records == Logged(old(records), outcome)
    {
      var parsed := Parse(encoded);
      if parsed.Err? {
        return Outcome.BadPayload;
      }
      var id := parsed.value.ticketId;
      if id !in publicKeys {
        return UnknownTicket(id);
      }
      match Verify(scheme, encoded, publicKeys[id], nowMs) {
        case InvalidSignature => return Outcome.InvalidSignature(id);
        case ExpiredTimestamp => return Outcome.ExpiredTimestamp(id);
        case KeyRejected => return Throws(id);
        case BadPayload => return Outcome.BadPayload;
        case Accepted(_, _) =>
      }
      if id in records {
        return AlreadyScanned(records[id]);
      }
      var record := ScanRecord(id, nowMs / 1000, parsed.value.timestampS);
      records := records[id := record];
      return Valid(record);
    }

    method AddPublicKey(id: Bytes, keyB64: string)
      modifies this`publicKeys
      ensures publicKeys == old(publicKeys)[id := Decode(keyB64)]
    {
      var key := FromBase64Url(keyB64);
      publicKeys := publicKeys[id := key];
    }

    method ClearScanLog()
      modifies this`records
      ensures records == map[]
    {
      records := map[];
    }
  }

  /** The payload is of a registered ticket, signed under the ticket's key, and timely. */
  predicate Entitled(scheme: Scheme, keys: Keys, encoded: string, nowMs: int) {
    var r := Parse(encoded);
    r.Ok? && r.value.ticketId in keys && Signed(scheme, r.value, keys[r.value.ticketId]) && Timely(r.value, nowMs)
  }

  /** A scan admits exactly an entitled payload whose ticket is not in the log; every refusal has its own cause. */
  lemma {:induction false} ScanExact(scheme: Scheme, keys: Keys, log: ScanLog, encoded: string, nowMs: int)
    ensures
      var o, r := ScanOutcome(scheme, keys, log, encoded, nowMs), Parse(encoded);
      var known := r.Ok? && r.value.ticketId in keys;
      var signed := known && Signed(scheme, r.value, keys[r.value.ticketId]);
      && (o.BadPayload? <==> r.Err?)
      && (o.UnknownTicket? <==> r.Ok? && !known)
      && (o.Throws? <==> known && |keys[r.value.ticketId]| != 32)
      && (o.InvalidSignature? <==> known && |keys[r.value.ticketId]| == 32 && !signed)
      && (o.ExpiredTimestamp? <==> signed && !Timely(r.value, nowMs))
      && (o.AlreadyScanned? <==> Entitled(scheme, keys, encoded, nowMs) && r.value.ticketId in log)
      && (o.Valid? <==> Entitled(scheme, keys, encoded, nowMs) && r.value.ticketId !in log)
      && (o.Valid? ==> o.record == ScanRecord(r.value.ticketId, nowMs / 1000, r.value.timestampS))
  {
    var r := Parse(encoded);
    if r.Ok? && r.value.ticketId in keys {
      VerifyExact(scheme, encoded, keys[r.value.ticketId], nowMs);
    }
  }

  /** A payload that is not signed under its ticket's key leaves the log as it is. */
  lemma {:induction false} UnsignedChangesNothing(scheme: Scheme, keys: Keys, log: ScanLog, encoded: string, nowMs: int)
    requires
      var r := Parse(encoded);
      r.Ok? && r.value.ticketId in keys && !Signed(scheme, r.value, keys[r.value.ticketId])
    ensures
      var o := ScanOutcome(scheme, keys, log, encoded, nowMs);
      (o.InvalidSignature? || o.Throws?) && Logged(log, o) == log
  {
    ScanExact(scheme, keys, log, encoded, nowMs);
  }

  // ---------- runs of awaited calls ----------

  datatype Call =
    | Scan(encoded: string, nowMs: int)
    | AddKey(ticketId: Bytes, keyB64: string)
    | ClearLog

  /** A scanner, and the outcomes of the scans since its log was last cleared. */
  datatype Gate = Gate(keys: Keys, log: ScanLog, outcomes: seq<Outcome>)

  function Apply(scheme: Scheme, g: Gate, c: Call): Gate {
    match c
    case Scan(encoded, nowMs) =>
      var o := ScanOutcome(scheme, g.keys, g.log, encoded, nowMs);
      Gate(g.keys, Logged(g.log, o), g.outcomes + [o])
    case AddKey(id, keyB64) => g.(keys := g.keys[id := Decode(keyB64)])
    case ClearLog => Gate(g.keys, map[], [])
  }

  function Run(scheme: Scheme, keys: Keys, calls: seq<Call>): Gate {
    if calls == [] then Gate(keys, map[], [])
    else Apply(scheme, Run(scheme, keys, calls[..|calls| - 1]), calls[|calls| - 1])
  }

  predicate IsValidFor(o: Outcome, id: Bytes) {
    o.Valid? && o.record.ticketId == id
  }

  /** The log is exactly the VALID outcomes, one per ticket, and every duplicate shows the first record. */
  ghost predicate Faithful(g: Gate) {
    && (forall id :: id in g.log ==> g.log[id].ticketId == id && Valid(g.log[id]) in g.outcomes)
    && (forall i :: 0 <= i < |g.outcomes| && g.outcomes[i].Valid? ==>
          g.outcomes[i].record.ticketId in g.log && g.log[g.outcomes[i].record.ticketId] == g.outcomes[i].record)
    && (forall i, j, id :: 0 <= i < j < |g.outcomes| && IsValidFor(g.outcomes[i], id) ==>
          !IsValidFor(g.outcomes[j], id))
    && (forall j :: 0 <= j < |g.outcomes| && g.outcomes[j].AlreadyScanned? ==>
          exists i :: 0 <= i < j && g.outcomes[i] == Valid(g.outcomes[j].record))
  }

  lemma {:induction false} ScanKeepsFaithful(scheme: Scheme, g: Gate, encoded: string, nowMs: int)
    requires Faithful(g)
    ensures Faithful(Apply(scheme, g, Scan(encoded, nowMs)))
  {
    var o := ScanOutcome(scheme, g.keys, g.log, encoded, nowMs);
    var after := g.outcomes + [o];
    assert forall k :: 0 <= k < |g.outcomes| ==> after[k] == g.outcomes[k];
    assert after[|g.outcomes|] == o;
    forall j | 0 <= j < |after| && after[j].AlreadyScanned?
      ensures exists i :: 0 <= i < j && after[i] == Valid(after[j].record)
    {
      if j < |g.outcomes| {
        var i :| 0 <= i < j && g.outcomes[i] == Valid(g.outcomes[j].record);
        assert after[i] == Valid(after[j].record);
      } else {
        DuplicateIsLogged(scheme, g, encoded, nowMs);
        var i :| 0 <= i < |g.outcomes| && g.outcomes[i] == Valid(o.record);
        assert after[i] == Valid(after[j].record);
      }
    }
    FreshIsUnlogged(scheme, g, encoded, nowMs);
  }

  lemma {:induction false} DuplicateIsLogged(scheme: Scheme, g: Gate, encoded: string, nowMs: int)
    requires Faithful(g) && ScanOutcome(scheme, g.keys, g.log, encoded, nowMs).AlreadyScanned?
    ensures Valid(ScanOutcome(scheme, g.keys, g.log, encoded, nowMs).record) in g.outcomes
  {
  }

  lemma {:induction false} FreshIsUnlogged(scheme: Scheme, g: Gate, encoded: string, nowMs: int)
    ensures var o := ScanOutcome(scheme, g.keys, g.log, encoded, nowMs); o.Valid? ==> o.record.ticketId !in g.log
  {
  }

  /** Over every run of awaited calls a ticket is admitted at most once between clears, and the log says so. */
  lemma {:induction false} RunFaithful(scheme: Scheme, keys: Keys, calls: seq<Call>)
    ensures Faithful(Run(scheme, keys, calls))
  {
    if calls == [] {
    } else {
      var last := calls[|calls| - 1];
      RunFaithful(scheme, keys, calls[..|calls| - 1]);
      if last.Scan? {
        ScanKeepsFaithful(scheme, Run(scheme, keys, calls[..|calls| - 1]), last.encoded, last.nowMs);
      }
    }
  }

  /** Call number `k` scanned an entitled payload, under the keys registered by then, that explains the record. */
  predicate Justifies(scheme: Scheme, keys: Keys, calls: seq<Call>, k: nat, record: ScanRecord)
    requires k < |calls|
  {
    && calls[k].Scan?
    && Entitled(scheme, Run(scheme, keys, calls[..k]).keys, calls[k].encoded, calls[k].nowMs)
    && var p := Parse(calls[k].encoded).value;
    record == ScanRecord(p.ticketId, calls[k].nowMs / 1000, p.timestampS)
  }

  /** The last call that did not leave the record as it was. */
  lemma {:induction false} LastWrite(calls: seq<Call>, logs: seq<ScanLog>, id: Bytes) returns (k: nat)
    requires |logs| == |calls| + 1 && logs[0] == map[] && id in logs[|calls|]
    ensures k < |calls| && id in logs[k + 1] && logs[k + 1][id] == logs[|calls|][id]
    ensures calls[k].ClearLog? || id !in logs[k] || logs[k][id] != logs[k + 1][id]
    ensures forall j :: k < j < |calls| ==> !calls[j].ClearLog?
  {
    var n := |calls| - 1;
    if calls[n].ClearLog? || id !in logs[n] || logs[n][id] != logs[n + 1][id] {
      k := n;
    } else {
      k := LastWrite(calls[..n], logs[..n + 1], id);
    }
  }

  /** A record that a call does not leave as it was is what an entitled payload says. */
  lemma {:induction false} WriteEntitled(scheme: Scheme, g: Gate, c: Call, id: Bytes)
    requires
      var log := Apply(scheme, g, c).log;
      id in log && (c.ClearLog? || id !in g.log || g.log[id] != log[id])
    ensures c.Scan? && Entitled(scheme, g.keys, c.encoded, c.nowMs)
    ensures
      var p := Parse(c.encoded).value;
      p.ticketId == id && Apply(scheme, g, c).log[id] == ScanRecord(id, c.nowMs / 1000, p.timestampS)
  {
    if c.Scan? {
      ScanExact(scheme, g.keys, g.log, c.encoded, c.nowMs);
    }
  }

  lemma {:induction false} RunStep(scheme: Scheme, keys: Keys, calls: seq<Call>, k: nat)
    requires k < |calls|
    ensures Run(scheme, keys, calls[..k + 1]) == Apply(scheme, Run(scheme, keys, calls[..k]), calls[k])
  {
    assert calls[..k + 1][..k] == calls[..k];
  }

  /**
   In every run each record in the log comes from a scan, since the last clear,
   of a payload that was entitled at the time.
   */
  lemma {:induction false} LogJustified(scheme: Scheme, keys: Keys, calls: seq<Call>, id: Bytes) returns (k: nat)
    requires id in Run(scheme, keys, calls).log
    ensures k < |calls| && Justifies(scheme, keys, calls, k, Run(scheme, keys, calls).log[id])
    ensures Run(scheme, keys, calls).log[id].ticketId == id
    ensures forall j :: k < j < |calls| ==> !calls[j].ClearLog?
  {
    var logs := seq(|calls| + 1, i requires 0 <= i <= |calls| => Run(scheme, keys, calls[..i]).log);
    assert calls[..|calls|] == calls;
    k := LastWrite(calls, logs, id);
    RunStep(scheme, keys, calls, k);
    WriteEntitled(scheme, Run(scheme, keys, calls[..k]), calls[k], id);
  }

  /**
   From ticket screen to gate: with the key registered in its exported form and
   the ticket not yet in the log, an honest payload is admitted exactly when it
   is scanned within 75 seconds of its window boundary.
   */
  lemma {:induction false} HonestTicketAdmitted(scheme: Scheme, keys: Keys, log: ScanLog, id: Bytes, secret: Bytes,
                                                nonce: Bytes,
                             shownMs: nat, scannedMs: int)
    requires scheme.Lawful() && |secret| == 64 && |nonce| == 16 && shownMs <= MAX_SAFE_INTEGER
    requires |id| <= 16 && !EndsInZero(id) && id !in log
    ensures
      ScanOutcome(scheme, keys[id := Decode(Encode(scheme.publicKey(secret)))], log,
                  Payload(scheme, id, secret, nonce, shownMs), scannedMs) ==
      if Abs(scannedMs / 1000 - Window(shownMs)) <= 75
      then Valid(ScanRecord(id, scannedMs / 1000, Window(shownMs))) else Outcome.ExpiredTimestamp(id)
  {
    DecodeEncode(scheme.publicKey(secret));
    ParseGenerated(scheme, id, secret, nonce, shownMs);
    FieldRoundTripIff(id, 16);
    VerifyGenerated(scheme, id, secret, nonce, shownMs, scannedMs);
  }

  // ---------- scans that are not awaited ----------

  /**
   The log is read, then written after an `await`.  `pending` holds the records
   of scans that found no entry and have still to write one.
   */
  datatype Racing = Racing(log: ScanLog, pending: seq<ScanRecord>, admitted: seq<ScanRecord>)

  datatype Half =
    | Look(record: ScanRecord)
    | Commit(n: nat)

  /** A look at a logged ticket is a duplicate and ends there. */
  function Advance(s: Racing, h: Half): Racing {
    match h
    case Look(r) => if r.ticketId in s.log then s else s.(pending := s.pending + [r])
    case Commit(n) =>
      if n >= |s.pending| then s
      else
        var r := s.pending[n];
        Racing(s.log[r.ticketId := r], s.pending[..n] + s.pending[n + 1..], s.admitted + [r])
  }

  function Race(halves: seq<Half>): Racing {
    if halves == [] then Racing(map[], [], [])
    else Advance(Race(halves[..|halves| - 1]), halves[|halves| - 1])
  }

  function TicketIds(rs: seq<ScanRecord>): seq<Bytes> {
    seq(|rs|, i requires 0 <= i < |rs| => rs[i].ticketId)
  }

  function Tickets(rs: seq<ScanRecord>): multiset<Bytes> {
    multiset(TicketIds(rs))
  }

  /** How often each ticket has been admitted, or will be once the pending scans have written. */
  function Admissions(s: Racing): multiset<Bytes> {
    Tickets(s.admitted) + Tickets(s.pending)
  }

  /** The scan does not start while another scan of the same ticket has yet to write. */
  predicate Awaits(s: Racing, h: Half) {
    h.Look? && h.record.ticketId !in s.log ==> h.record.ticketId !in Tickets(s.pending)
  }

  predicate NoOverlap(halves: seq<Half>) {
    if halves == [] then true
    else NoOverlap(halves[..|halves| - 1]) && Awaits(Race(halves[..|halves| - 1]), halves[|halves| - 1])
  }

  lemma {:induction false} TicketsSnoc(rs: seq<ScanRecord>, r: ScanRecord)
    ensures Tickets(rs + [r]) == Tickets(rs) + multiset{r.ticketId}
  {
    assert TicketIds(rs + [r]) == TicketIds(rs) + [r.ticketId];
  }

  lemma {:induction false} TicketsSplit(rs: seq<ScanRecord>, n: nat)
    requires n < |rs|
    ensures Tickets(rs) == Tickets(rs[..n] + rs[n + 1..]) + multiset{rs[n].ticketId}
  {
    assert TicketIds(rs) == TicketIds(rs[..n]) + [rs[n].ticketId] + TicketIds(rs[n + 1..]);
    assert TicketIds(rs[..n] + rs[n + 1..]) == TicketIds(rs[..n]) + TicketIds(rs[n + 1..]);
  }

  lemma {:induction false} AdvanceCounts(s: Racing, h: Half)
    ensures Admissions(Advance(s, h)) ==
      Admissions(s) + if h.Look? && h.record.ticketId !in s.log then multiset{h.record.ticketId} else multiset{}
  {
    match h
    case Look(r) =>
      TicketsSnoc(s.pending, r);
    case Commit(n) =>
      if n < |s.pending| {
        TicketsSplit(s.pending, n);
        TicketsSnoc(s.admitted, s.pending[n]);
      }
  }

  ghost predicate LogMatches(s: Racing) {
    forall id :: id in s.log <==> id in Tickets(s.admitted)
  }

  lemma {:induction false} AdvanceKeepsMatch(s: Racing, h: Half)
    requires LogMatches(s)
    ensures LogMatches(Advance(s, h))
  {
    if h.Commit? && h.n < |s.pending| {
      TicketsSnoc(s.admitted, s.pending[h.n]);
    }
  }

  lemma {:induction false} LogIsAdmitted(halves: seq<Half>)
    ensures LogMatches(Race(halves))
  {
    if halves == [] {
    } else {
      LogIsAdmitted(halves[..|halves| - 1]);
      AdvanceKeepsMatch(Race(halves[..|halves| - 1]), halves[|halves| - 1]);
    }
  }

  /** Interleaved scans admit every ticket at most once exactly when no two scans of one ticket overlap. */
  lemma {:induction false} AdmitsOnceIff(halves: seq<Half>)
    ensures (forall id :: Admissions(Race(halves))[id] <= 1) <==> NoOverlap(halves)
  {
    if halves == [] {
    } else {
      var before, h := halves[..|halves| - 1], halves[|halves| - 1];
      var s := Race(before);
      AdmitsOnceIff(before);
      AdvanceCounts(s, h);
      LogIsAdmitted(before);
      if !NoOverlap(before) {
        var id :| Admissions(s)[id] > 1;
        assert Admissions(Race(halves))[id] > 1;
      } else if !Awaits(s, h) {
        assert Admissions(Race(halves))[h.record.ticketId] > 1;
      }
    }
  }

  /** The double admission: two looks, then two writes. */
  lemma {:induction false} OverlapAdmitsTwice(r1: ScanRecord, r2: ScanRecord)
    requires r1.ticketId == r2.ticketId
    ensures Race([Look(r1), Look(r2), Commit(0), Commit(0)]).admitted == [r1, r2]
  {
    var h := [Look(r1), Look(r2), Commit(0), Commit(0)];
    assert h[..3][..2][..1][..0] == [];
    assert h[..3] == [Look(r1), Look(r2), Commit(0)];
    assert h[..3][..2] == [Look(r1), Look(r2)];
    assert h[..3][..2][..1] == [Look(r1)];
    assert Race(h[..3][..2][..1]) == Racing(map[], [r1], []);
    assert Race(h[..3][..2]) == Racing(map[], [r1, r2], []);
    assert Race(h[..3]).pending == [r2];
  }
}

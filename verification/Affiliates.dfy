/**
 Affiliate registration.  Every request is a small program of SQL statements,
 each atomic on its own; any number of requests interleave between statements.
 The table has two unique constraints, on the referral code and on the pair of
 event and wallet.
 */
module Affiliates {
  import opened Wrappers

  const CODE_ALPHABET := "0123456789" + "ABCDEFGH" + "JK" + "MN" + "PQRST" + "VWXYZ"
  const CODE_LENGTH := 10
  const MAX_CODE_ATTEMPTS := 5

  predicate IsCode(code: string) {
    |code| == CODE_LENGTH && forall c :: c in code ==> c in CODE_ALPHABET
  }

  datatype Row = Row(event: string, wallet: string, code: string)

  datatype Response =
    | Registered(code: string, already: bool)
    | EventNotFound
    | Conflict(tried: seq<string>)
    | DatabaseError

  /** Where a request stands; `tried` are the codes it has generated in vain. */
  datatype Pc =
    | FindEvent
    | FindExisting
    | Insert(tried: seq<string>)
    | Reread
    | Done(response: Response)

  datatype Request = Request(event: string, wallet: string, pc: Pc)

  datatype Server = Server(events: set<string>, table: seq<Row>, requests: seq<Request>)

  /** The registration of a pair, if there is one. */
  function Lookup(table: seq<Row>, event: string, wallet: string): Option<Row> {
    if table == [] then None
    else if table[0].event == event && table[0].wallet == wallet then Some(table[0])
    else Lookup(table[1..], event, wallet)
  }

  predicate CodeTaken(table: seq<Row>, code: string) {
    exists r :: r in table && r.code == code
  }

  datatype Step =
    | Arrive(event: string, wallet: string)
    | Statement(request: nat, code: string, pairFirst: bool)
    | Fail(request: nat)
    | FailAfterInsert(request: nat, code: string)

  /**
   The next statement of a request.  `code` is the freshly generated code, and
   `pairFirst` says which constraint is reported when both are violated.
   */
  function Execute(table: seq<Row>, events: set<string>, q: Request, code: string, pairFirst: bool): (seq<Row>, Pc) {
    match q.pc
    case FindEvent => (table, if q.event in events then FindExisting else Done(EventNotFound))
    case FindExisting =>
      var row := Lookup(table, q.event, q.wallet);
      (table, if row.Some? then Done(Registered(row.value.code, true)) else Insert([]))
    case Insert(tried) =>
      var pairTaken := Lookup(table, q.event, q.wallet).Some?;
      if pairTaken && (pairFirst || !CodeTaken(table, code)) then (table, Reread)
      else if CodeTaken(table, code) then
        (table, if |tried| + 1 < MAX_CODE_ATTEMPTS then Insert(tried + [code]) else Done(Conflict(tried + [code])))
      else (table + [Row(q.event, q.wallet, code)], Done(Registered(code, false)))
    case Reread =>
      var row := Lookup(table, q.event, q.wallet);
      (table, Done(if row.Some? then Registered(row.value.code, true) else DatabaseError))
    case Done(_) => (table, q.pc)
  }

  /** A step naming no request, or inserting what is not a code, changes nothing. */
  function Apply(s: Server, t: Step): Server {
    match t
    case Arrive(event, wallet) => s.(requests := s.requests + [Request(event, wallet, FindEvent)])
    case Statement(i, code, pairFirst) =>
      if i >= |s.requests| || !IsCode(code) then s
      else
        var q := s.requests[i];
        var (table, pc) := Execute(s.table, s.events, q, code, pairFirst);
        s.(table := table, requests := s.requests[i := q.(pc := pc)])
    case Fail(i) =>
      if i >= |s.requests| || s.requests[i].pc.Done? then s
      else s.(requests := s.requests[i := s.requests[i].(pc := Done(DatabaseError))])
    case FailAfterInsert(i, code) =>
      if i >= |s.requests| || !IsCode(code) || !s.requests[i].pc.Insert? then s
      else
        var q := s.requests[i];
        s.(table := Execute(s.table, s.events, q, code, true).0,
           requests := s.requests[i := q.(pc := Done(DatabaseError))])
  }

  function Run(events: set<string>, steps: seq<Step>): Server {
    if steps == [] then Server(events, [], [])
    else Apply(Run(events, steps[..|steps| - 1]), steps[|steps| - 1])
  }

  // ---------- what every interleaving keeps ----------

  /** At most one row per pair, at most one row per code. */
  predicate Unique(table: seq<Row>) {
    forall i, j :: 0 <= i < j < |table| ==>
      table[i].code != table[j].code && (table[i].event != table[j].event || table[i].wallet != table[j].wallet)
  }

  predicate Fresh(q: Request) {
    q.pc.Done? && q.pc.response.Registered? && !q.pc.response.already
  }

  ghost predicate Backed(table: seq<Row>, q: Request) {
    match q.pc
    case FindEvent => true
    case FindExisting => true
    case Insert(tried) => |tried| < MAX_CODE_ATTEMPTS && forall c :: c in tried ==> CodeTaken(table, c)
    case Reread => Lookup(table, q.event, q.wallet).Some?
    case Done(Registered(code, _)) => Row(q.event, q.wallet, code) in table
    case Done(Conflict(tried)) => |tried| == MAX_CODE_ATTEMPTS && forall c :: c in tried ==> CodeTaken(table, c)
    case Done(_) => true
  }

  ghost predicate Consistent(s: Server) {
    && Unique(s.table)
    && (forall r :: r in s.table ==> IsCode(r.code))
    && (forall i :: 0 <= i < |s.requests| ==> Backed(s.table, s.requests[i]))
    && (forall i, j :: 0 <= i < j < |s.requests| && Fresh(s.requests[i]) && Fresh(s.requests[j]) ==>
          s.requests[i].event != s.requests[j].event || s.requests[i].wallet != s.requests[j].wallet)
  }

  lemma {:induction false} LookupFinds(table: seq<Row>, event: string, wallet: string)
    ensures Lookup(table, event, wallet).Some? ==>
      var r := Lookup(table, event, wallet).value; r in table && r.event == event && r.wallet == wallet
    ensures Lookup(table, event, wallet).None? ==>
      forall r :: r in table ==> r.event != event || r.wallet != wallet
  {
    if table == [] {
    } else {
      LookupFinds(table[1..], event, wallet);
      assert table == [table[0]] + table[1..];
    }
  }

  /** Under the constraints a pair's row is the one the lookup returns. */
  lemma {:induction false} LookupIsTheRow(table: seq<Row>, r: Row)
    requires Unique(table) && r in table
    ensures Lookup(table, r.event, r.wallet) == Some(r)
  {
    LookupFinds(table, r.event, r.wallet);
  }

  lemma {:induction false} BackedStays(table: seq<Row>, row: Row, q: Request)
    requires Backed(table, q)
    ensures Backed(table + [row], q)
  {
    forall c | CodeTaken(table, c) ensures CodeTaken(table + [row], c) {
      var r :| r in table && r.code == c;
      assert r in table + [row];
    }
    LookupFinds(table, q.event, q.wallet);
    LookupFinds(table + [row], q.event, q.wallet);
  }

  /** The outcome of one statement, with everything the invariant needs to know of it. */
  lemma {:induction false} ExecuteKeeps(table: seq<Row>, events: set<string>, q: Request, code: string, pairFirst: bool)
    requires Unique(table) && Backed(table, q) && IsCode(code)
    ensures
      var (after, pc) := Execute(table, events, q, code, pairFirst);
      && Backed(after, q.(pc := pc))
      && Unique(after)
      && (after == table || after == table + [Row(q.event, q.wallet, code)])
      && (Fresh(q.(pc := pc)) && !q.pc.Done? ==>
            after != table && forall r :: r in table ==> r.event != q.event || r.wallet != q.wallet)
  {
    LookupFinds(table, q.event, q.wallet);
    if q.pc.Insert? {
      var tried := q.pc.tried;
      forall c | c in tried + [code] ensures c == code || c in tried {
      }
    }
  }

  /** Replacing one request, and perhaps adding its row, keeps the server consistent. */
  lemma {:induction false} UpdateKeeps(s: Server, i: nat, code: string, table: seq<Row>, q: Request)
    requires Consistent(s) && i < |s.requests| && IsCode(code)
    requires q.event == s.requests[i].event && q.wallet == s.requests[i].wallet
    requires Unique(table) && Backed(table, q)
    requires table == s.table || table == s.table + [Row(q.event, q.wallet, code)]
    requires Fresh(q) && q != s.requests[i] ==> forall r :: r in s.table ==> r.event != q.event || r.wallet != q.wallet
    ensures Consistent(s.(table := table, requests := s.requests[i := q]))
  {
    OthersBacked(s, q.event, q.wallet, code);
    forall j | 0 <= j < |s.requests| && Fresh(s.requests[j])
      ensures Row(s.requests[j].event, s.requests[j].wallet, s.requests[j].pc.response.code) in s.table
    {
      assert Backed(s.table, s.requests[j]);
    }
  }

  lemma {:induction false} ApplyKeeps(s: Server, t: Step)
    requires Consistent(s)
    ensures Consistent(Apply(s, t))
    ensures s.table <= Apply(s, t).table
  {
    match t
    case Arrive(event, wallet) =>
    case Fail(i) =>
    case Statement(i, code, pairFirst) =>
      if i < |s.requests| && IsCode(code) {
        var q := s.requests[i];
        ExecuteKeeps(s.table, s.events, q, code, pairFirst);
        var (table, pc) := Execute(s.table, s.events, q, code, pairFirst);
        UpdateKeeps(s, i, code, table, q.(pc := pc));
      }
    case FailAfterInsert(i, code) =>
      if i < |s.requests| && IsCode(code) {
        var q := s.requests[i];
        ExecuteKeeps(s.table, s.events, q, code, true);
        UpdateKeeps(s, i, code, Execute(s.table, s.events, q, code, true).0, q.(pc := Done(DatabaseError)));
      }
  }

  lemma {:induction false} OthersBacked(s: Server, event: string, wallet: string, code: string)
    requires Consistent(s)
    ensures forall i :: 0 <= i < |s.requests| ==> Backed(s.table + [Row(event, wallet, code)], s.requests[i])
  {
    forall i | 0 <= i < |s.requests| ensures Backed(s.table + [Row(event, wallet, code)], s.requests[i]) {
      BackedStays(s.table, Row(event, wallet, code), s.requests[i]);
    }
  }

  lemma {:induction false} RunConsistent(events: set<string>, steps: seq<Step>)
    ensures Consistent(Run(events, steps))
  {
    if steps == [] {
    } else {
      RunConsistent(events, steps[..|steps| - 1]);
      ApplyKeeps(Run(events, steps[..|steps| - 1]), steps[|steps| - 1]);
    }
  }

  /**
   Under every interleaving: successful answers for one pair carry one code, at
   most one of them is a new registration, and answers for different pairs carry
   different codes.
   */
  lemma {:induction false} AnswersAgree(events: set<string>, steps: seq<Step>, i: nat, j: nat)
    requires i < j < |Run(events, steps).requests|
    ensures
      var a, b := Run(events, steps).requests[i], Run(events, steps).requests[j];
      a.pc.Done? && b.pc.Done? && a.pc.response.Registered? && b.pc.response.Registered? ==>
        && (a.event == b.event && a.wallet == b.wallet <==> a.pc.response.code == b.pc.response.code)
        && (a.event == b.event && a.wallet == b.wallet ==> a.pc.response.already || b.pc.response.already)
  {
    RunConsistent(events, steps);
    var s := Run(events, steps);
    var a, b := s.requests[i], s.requests[j];
    if a.pc.Done? && b.pc.Done? && a.pc.response.Registered? && b.pc.response.Registered? {
      assert Row(a.event, a.wallet, a.pc.response.code) in s.table;
      assert Row(b.event, b.wallet, b.pc.response.code) in s.table;
    }
  }

  /** Once a pair is registered, a request that looks for it is given that code, and no later step changes the row. */
  lemma {:induction false} RegistrationIsPermanent(events: set<string>, steps: seq<Step>, more: seq<Step>, row: Row)
    requires row in Run(events, steps).table
    ensures
      var table := Run(events, steps + more).table;
      row in table && Lookup(table, row.event, row.wallet) == Some(row)
  {
    if more == [] {
      assert steps + more == steps;
    } else {
      var before := more[..|more| - 1];
      RegistrationIsPermanent(events, steps, before, row);
      assert (steps + more)[..|steps + more| - 1] == steps + before;
      RunConsistent(events, steps + before);
      ApplyKeeps(Run(events, steps + before), more[|more| - 1]);
    }
    RunConsistent(events, steps + more);
    LookupIsTheRow(Run(events, steps + more).table, row);
  }

  // ---------- why a request is answered as it is ----------

  /** The database failed one of the request's statements. */
  ghost predicate Faulted(steps: seq<Step>, i: nat) {
    exists k :: 0 <= k < |steps| && (steps[k].Fail? || steps[k].FailAfterInsert?) && steps[k].request == i
  }

  ghost predicate Explained(events: set<string>, steps: seq<Step>, i: nat, q: Request) {
    match q.pc
    case FindEvent => true
    case Done(EventNotFound) => q.event !in events
    case Done(DatabaseError) => Faulted(steps, i)
    case _ => q.event in events
  }

  lemma {:induction false} StatementExplained(table: seq<Row>, events: set<string>, steps: seq<Step>, i: nat,
                                              q: Request, code: string, pairFirst: bool)
    requires Backed(table, q) && Explained(events, steps, i, q)
    ensures Explained(events, steps, i, q.(pc := Execute(table, events, q, code, pairFirst).1))
  {
  }

  lemma {:induction false} StepExplained(s: Server, steps: seq<Step>, i: nat)
    requires Consistent(s) && steps != [] && i < |Apply(s, steps[|steps| - 1]).requests|
    requires i < |s.requests| ==> Explained(s.events, steps[..|steps| - 1], i, s.requests[i])
    ensures Explained(s.events, steps, i, Apply(s, steps[|steps| - 1]).requests[i])
  {
    var before, t := steps[..|steps| - 1], steps[|steps| - 1];
    if Faulted(before, i) {
      var k :| 0 <= k < |before| && (before[k].Fail? || before[k].FailAfterInsert?) && before[k].request == i;
      assert steps[k] == before[k];
    }
    if i < |s.requests| {
      assert Explained(s.events, steps, i, s.requests[i]);
      if t.Statement? && t.request == i && IsCode(t.code) {
        StatementExplained(s.table, s.events, steps, i, s.requests[i], t.code, t.pairFirst);
      }
    }
  }

  lemma {:induction false} RunExplained(events: set<string>, steps: seq<Step>, i: nat)
    requires i < |Run(events, steps).requests|
    ensures Run(events, steps).events == events
    ensures Explained(events, steps, i, Run(events, steps).requests[i])
  {
    var before := steps[..|steps| - 1];
    RunConsistent(events, before);
    EventsFixed(events, before);
    if i < |Run(events, before).requests| {
      RunExplained(events, before, i);
    }
    StepExplained(Run(events, before), steps, i);
  }

  lemma {:induction false} EventsFixed(events: set<string>, steps: seq<Step>)
    ensures Run(events, steps).events == events
  {
    if steps == [] {
    } else {
      EventsFixed(events, steps[..|steps| - 1]);
    }
  }

  /**
   Under every interleaving an answer has its reason: an unknown event, five
   codes that are all taken, a failed statement of this very request, or else
   the pair is in the table under the code returned.
   */
  lemma {:induction false} AnswersHaveReasons(events: set<string>, steps: seq<Step>, i: nat)
    requires i < |Run(events, steps).requests| && Run(events, steps).requests[i].pc.Done?
    ensures
      var s, q := Run(events, steps), Run(events, steps).requests[i];
      match q.pc.response
      case EventNotFound => q.event !in events
      case DatabaseError => Faulted(steps, i)
      case Conflict(tried) => q.event in events && |tried| == 5 && forall c :: c in tried ==> CodeTaken(s.table, c)
      case Registered(code, _) => q.event in events && Row(q.event, q.wallet, code) in s.table
  {
    RunConsistent(events, steps);
    RunExplained(events, steps, i);
  }

  /** Codes are ten characters of Crockford's base 32, which leaves out four letters. */
  lemma {:induction false} CodesSpelledOut(code: string)
    ensures IsCode(code) <==> |code| == 10 && forall i :: 0 <= i < |code| ==> CodeLetter(code[i])
  {
    forall c: char ensures c in CODE_ALPHABET <==> CodeLetter(c) {
      AlphabetSpelledOut(c);
    }
  }

  predicate CodeLetter(c: char) {
    '0' <= c <= '9' || ('A' <= c <= 'Z' && c !in "ILOU")
  }

  lemma {:induction false} AlphabetSpelledOut(c: char)
    ensures c in CODE_ALPHABET <==> CodeLetter(c)
  {
    RangeSpelledOut("0123456789", '0', c);
    RangeSpelledOut("ABCDEFGH", 'A', c);
    RangeSpelledOut("JK", 'J', c);
    RangeSpelledOut("MN", 'M', c);
    RangeSpelledOut("PQRST", 'P', c);
    RangeSpelledOut("VWXYZ", 'V', c);
  }

  lemma {:induction false} RangeSpelledOut(range: string, first: char, c: char)
    requires forall i :: 0 <= i < |range| ==> range[i] as int == first as int + i
    ensures c in range <==> 0 <= c as int - first as int < |range|
  {
    if 0 <= c as int - first as int < |range| {
      assert range[c as int - first as int] == c;
    }
  }

  // ---------- one request, uninterrupted ----------

  function Rank(pc: Pc): nat {
    match pc
    case FindEvent => 8
    case FindExisting => 7
    case Insert(tried) => if |tried| < MAX_CODE_ATTEMPTS then 6 - |tried| else 2
    case Reread => 1
    case Done(_) => 0
  }

  /** The statements of one request to its end, generating `codes` in turn. */
  function Alone(table: seq<Row>, events: set<string>, q: Request, codes: seq<string>): (seq<Row>, Response)
    requires |codes| == MAX_CODE_ATTEMPTS
    decreases Rank(q.pc)
  {
    if q.pc.Done? then (table, q.pc.response)
    else
      var code := codes[if q.pc.Insert? && |q.pc.tried| < |codes| then |q.pc.tried| else 0];
      var (after, pc) := Execute(table, events, q, code, true);
      Alone(after, events, q.(pc := pc), codes)
  }

  lemma {:induction false} AloneUntilInsert(table: seq<Row>, events: set<string>, q: Request, codes: seq<string>)
    requires |codes| == MAX_CODE_ATTEMPTS && q.pc.FindEvent?
    ensures Alone(table, events, q, codes) ==
      if q.event !in events then (table, EventNotFound)
      else if Lookup(table, q.event, q.wallet).Some?
      then (table, Registered(Lookup(table, q.event, q.wallet).value.code, true))
      else Alone(table, events, q.(pc := Insert([])), codes)
  {
    var found := q.(pc := FindExisting);
    if q.event in events {
      assert Alone(table, events, q, codes) == Alone(table, events, found, codes);
    }
  }

  lemma {:induction false} AloneInserts(table: seq<Row>, events: set<string>, q: Request, codes: seq<string>, i: nat)
    requires |codes| == MAX_CODE_ATTEMPTS && i < |codes| && Lookup(table, q.event, q.wallet).None?
    requires q.pc == Insert(codes[..i])
    ensures Alone(table, events, q, codes) ==
      if !CodeTaken(table, codes[i]) then (table + [Row(q.event, q.wallet, codes[i])], Registered(codes[i], false))
      else if i + 1 < |codes| then Alone(table, events, q.(pc := Insert(codes[..i + 1])), codes)
      else (table, Conflict(codes))
  {
    assert codes[..i] + [codes[i]] == codes[..i + 1];
    assert i + 1 == |codes| ==> codes[..i + 1] == codes;
  }

  datatype Inserted = Stored | PairViolated | CodeViolated

  class EventAffiliates {
    const events: set<string>
    var table: seq<Row>

    constructor (events: set<string>)
      ensures this.events == events && table == []
    {
      this.events, table := events, [];
    }

    /** The INSERT statement under the two constraints. */
    method TryInsert(row: Row) returns (r: Inserted)
      modifies this
      ensures r == if Lookup(old(table), row.event, row.wallet).Some? then PairViolated
                   else if CodeTaken(old(table), row.code) then CodeViolated else Stored
      ensures table == if r.Stored? then old(table) + [row] else old(table)
    {
      if Lookup(table, row.event, row.wallet).Some? {
        return PairViolated;
      }
      if CodeTaken(table, row.code) {
        return CodeViolated;
      }
      table := table + [row];
      return Stored;
    }

    /** The request's own loop; alone, it never meets a pair that is registered after it looked. */
    method Register(event: string, wallet: string, codes: seq<string>) returns (r: Response)
      requires |codes| == 5
      modifies this
      ensures (table, r) == Alone(old(table), events, Request(event, wallet, FindEvent), codes)
    {
      ghost var q := Request(event, wallet, FindEvent);
      AloneUntilInsert(table, events, q, codes);
      if event !in events {
        return EventNotFound;
      }
      var existing := Lookup(table, event, wallet);
      if existing.Some? {
        return Registered(existing.value.code, true);
      }
      assert codes[..0] == [];
      for i := 0 to MAX_CODE_ATTEMPTS
        invariant table == old(table)
        invariant Alone(table, events, q, codes) ==
          if i < |codes| then Alone(table, events, q.(pc := Insert(codes[..i])), codes) else (table, Conflict(codes))
      {
        AloneInserts(table, events, q.(pc := Insert(codes[..i])), codes, i);
        var inserted := TryInsert(Row(event, wallet, codes[i]));
        match inserted {
          case Stored => return Registered(codes[i], false);
          case PairViolated => assert false;
          case CodeViolated =>
        }
      }
      return Conflict(codes);
    }
  }

  predicate AllTaken(table: seq<Row>, codes: seq<string>) {
    forall i :: 0 <= i < |codes| ==> CodeTaken(table, codes[i])
  }

  /** The code a request may be given: of its pair if registered, or else the first generated one nobody has. */
  predicate Gives(table: seq<Row>, event: string, wallet: string, codes: seq<string>, code: string, already: bool) {
    if already then Lookup(table, event, wallet) == Some(Row(event, wallet, code))
    else Lookup(table, event, wallet).None? && !CodeTaken(table, code)
         && exists i :: 0 <= i < |codes| && code == codes[i] && AllTaken(table, codes[..i])
  }

  /**
   What an uninterrupted request does: a repeated call returns the code given
   first, otherwise the first free code is stored; only five taken codes are a
   conflict, and only a new registration changes the table.
   */
  lemma {:induction false} AloneExact(table: seq<Row>, events: set<string>, event: string, wallet: string,
                                      codes: seq<string>)
    requires |codes| == 5
    ensures
      var (after, r) := Alone(table, events, Request(event, wallet, FindEvent), codes);
      && (r.EventNotFound? <==> event !in events)
      && (r.Conflict? <==> event in events && Lookup(table, event, wallet).None? && AllTaken(table, codes))
      && (r.Registered? ==> Gives(table, event, wallet, codes, r.code, r.already))
      && after == (if r.Registered? && !r.already then table + [Row(event, wallet, r.code)] else table)
      && !r.DatabaseError?
  {
    var q := Request(event, wallet, FindEvent);
    AloneUntilInsert(table, events, q, codes);
    LookupFinds(table, event, wallet);
    if event in events && Lookup(table, event, wallet).None? {
      assert codes[..0] == [];
      AloneFrom(table, events, q.(pc := Insert(codes[..0])), codes, 0);
    }
  }

  lemma {:induction false} AloneFrom(table: seq<Row>, events: set<string>, q: Request, codes: seq<string>, i: nat)
    requires |codes| == MAX_CODE_ATTEMPTS && i < |codes| && Lookup(table, q.event, q.wallet).None?
    requires q.pc == Insert(codes[..i]) && AllTaken(table, codes[..i])
    ensures
      var (after, r) := Alone(table, events, q, codes);
      if AllTaken(table, codes) then (after, r) == (table, Conflict(codes))
      else
        && r.Registered? && !r.already && Gives(table, q.event, q.wallet, codes, r.code, false)
        && after == table + [Row(q.event, q.wallet, r.code)]
    decreases |codes| - i
  {
    AloneInserts(table, events, q, codes, i);
    assert codes[..i + 1] == codes[..i] + [codes[i]];
    if CodeTaken(table, codes[i]) {
      if i + 1 < |codes| {
        AloneFrom(table, events, q.(pc := Insert(codes[..i + 1])), codes, i + 1);
      } else {
        assert codes[..i + 1] == codes;
      }
    }
  }
}

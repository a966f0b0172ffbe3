/**
 Event ratings: one row per rated ticket, and two running aggregates on the
 event.  A submission checks first and writes later in one transaction, so
 several may pass the check before any of them commits.
 */
module Ratings {
  import opened Wrappers

  datatype Rating = Rating(event: string, ticket: string, stars: int)

  datatype Aggregate = Aggregate(sum: int, count: int)

  datatype Ticket = Ticket(event: string, scanned: bool)

  /** `pending` holds the submissions whose transaction has found no earlier rating and has not committed. */
  datatype Database = Database(aggregates: map<string, Aggregate>, rows: seq<Rating>, pending: seq<Rating>)

  function Total(rows: seq<Rating>, event: string): Aggregate {
    if rows == [] then Aggregate(0, 0)
    else
      var t, last := Total(rows[..|rows| - 1], event), rows[|rows| - 1];
      if last.event == event then Aggregate(t.sum + last.stars, t.count + 1) else t
  }

  function WithStars(rows: seq<Rating>, event: string, stars: int): nat {
    if rows == [] then 0
    else
      var last := rows[|rows| - 1];
      WithStars(rows[..|rows| - 1], event, stars) + if last.event == event && last.stars == stars then 1 else 0
  }

  predicate TicketRated(rows: seq<Rating>, ticket: string) {
    exists r :: r in rows && r.ticket == ticket
  }

  // ---------- submissions ----------

  datatype Refusal = BadRating | TicketNotFound | EventNotFound | WrongEvent | NotScanned | NotEnded

  /** The checks before the transaction: `listed` events are not flagged, `ended` ones have no later end time. */
  function Check(listed: set<string>, ended: set<string>, tickets: map<string, Ticket>, r: Rating): Result<(), Refusal>
  {
    if r.stars < 1 || r.stars > 5 then Err(BadRating)
    else if r.ticket !in tickets then Err(TicketNotFound)
    else if r.event !in listed then Err(EventNotFound)
    else if tickets[r.ticket].event != r.event then Err(WrongEvent)
    else if !tickets[r.ticket].scanned then Err(NotScanned)
    else if r.event !in ended then Err(NotEnded)
    else Ok(())
  }

  datatype Step =
    | CreateEvent(event: string)
    | DeleteEvent(event: string)
    | Begin(listed: set<string>, ended: set<string>, tickets: map<string, Ticket>, rating: Rating)
    | Commit(n: nat)
    | RollBack(n: nat)

  function Without<T>(s: seq<T>, n: nat): seq<T>
    requires n < |s|
  {
    s[..n] + s[n + 1..]
  }

  function OfOthers(rows: seq<Rating>, event: string): seq<Rating> {
    if rows == [] then []
    else if rows[|rows| - 1].event == event then OfOthers(rows[..|rows| - 1], event)
    else OfOthers(rows[..|rows| - 1], event) + [rows[|rows| - 1]]
  }

  /**
   A commit inserts the row and bumps the aggregates together; the unique
   constraint on the ticket, or a missing event, undoes both.
   */
  function Apply(db: Database, s: Step): Database {
    match s
    case CreateEvent(e) =>
      if e in db.aggregates then db else db.(aggregates := db.aggregates[e := Aggregate(0, 0)])
    case DeleteEvent(e) => db.(aggregates := db.aggregates - {e}, rows := OfOthers(db.rows, e))
    case Begin(listed, ended, tickets, r) =>
      if Check(listed, ended, tickets, r).Ok? && !TicketRated(db.rows, r.ticket)
      then db.(pending := db.pending + [r]) else db
    case RollBack(n) => if n < |db.pending| then db.(pending := Without(db.pending, n)) else db
    case Commit(n) =>
      if n >= |db.pending| then db
      else
        var r := db.pending[n];
        var rest := db.(pending := Without(db.pending, n));
        if TicketRated(db.rows, r.ticket) || r.event !in db.aggregates then rest
        else
          var a := db.aggregates[r.event];
          rest.(rows := db.rows + [r], aggregates := db.aggregates[r.event := Aggregate(a.sum + r.stars, a.count + 1)])
  }

  function Run(steps: seq<Step>): Database {
    if steps == [] then Database(map[], [], [])
    else Apply(Run(steps[..|steps| - 1]), steps[|steps| - 1])
  }

  predicate InRange(rs: seq<Rating>) {
    forall i :: 0 <= i < |rs| ==> 1 <= rs[i].stars <= 5
  }

  predicate OncePerTicket(rs: seq<Rating>) {
    forall i, j :: 0 <= i < j < |rs| ==> rs[i].ticket != rs[j].ticket
  }

  ghost predicate Consistent(db: Database) {
    && InRange(db.rows) && InRange(db.pending) && OncePerTicket(db.rows)
    && (forall i :: 0 <= i < |db.rows| ==> db.rows[i].event in db.aggregates)
    && (forall e :: e in db.aggregates ==> db.aggregates[e] == Total(db.rows, e))
  }

  lemma {:induction false} TotalWithoutRows(rows: seq<Rating>, e: string)
    requires forall i :: 0 <= i < |rows| ==> rows[i].event != e
    ensures Total(rows, e) == Aggregate(0, 0)
  {
    if rows == [] {
    } else {
      TotalWithoutRows(rows[..|rows| - 1], e);
    }
  }

  lemma {:induction false} TotalSnoc(rows: seq<Rating>, r: Rating, e: string)
    ensures Total(rows + [r], e) ==
      if r.event == e then Aggregate(Total(rows, e).sum + r.stars, Total(rows, e).count + 1) else Total(rows, e)
  {
    assert (rows + [r])[..|rows|] == rows;
  }

  lemma {:induction false} OthersKept(rows: seq<Rating>, e: string)
    ensures forall r :: r in OfOthers(rows, e) <==> r in rows && r.event != e
    ensures OncePerTicket(rows) ==> OncePerTicket(OfOthers(rows, e))
  {
    if rows == [] {
    } else {
      var init, last := rows[..|rows| - 1], rows[|rows| - 1];
      OthersKept(init, e);
      assert rows == init + [last];
      var kept := OfOthers(init, e);
      if OncePerTicket(rows) {
        forall i | 0 <= i < |kept| ensures kept[i].ticket != last.ticket {
          assert kept[i] in init;
        }
      }
    }
  }

  lemma {:induction false} OthersTotal(rows: seq<Rating>, e: string, f: string)
    requires f != e
    ensures Total(OfOthers(rows, e), f) == Total(rows, f)
  {
    if rows == [] {
    } else {
      var init, last := rows[..|rows| - 1], rows[|rows| - 1];
      OthersTotal(init, e, f);
      TotalSnoc(OfOthers(init, e), last, f);
    }
  }

  lemma {:induction false} DeleteKeeps(db: Database, e: string)
    requires Consistent(db)
    ensures Consistent(Apply(db, DeleteEvent(e)))
  {
    OthersKept(db.rows, e);
    forall f | f != e ensures Total(OfOthers(db.rows, e), f) == Total(db.rows, f) {
      OthersTotal(db.rows, e, f);
    }
    var rows := OfOthers(db.rows, e);
    forall i | 0 <= i < |rows| ensures 1 <= rows[i].stars <= 5 && rows[i].event in db.aggregates - {e} {
      assert rows[i] in db.rows;
    }
  }

  lemma {:induction false} InsertKeeps(db: Database, r: Rating)
    requires Consistent(db) && 1 <= r.stars <= 5 && r.event in db.aggregates && !TicketRated(db.rows, r.ticket)
    ensures
      var a := db.aggregates[r.event];
      Consistent(db.(rows := db.rows + [r],
                     aggregates := db.aggregates[r.event := Aggregate(a.sum + r.stars, a.count + 1)]))
  {
    forall e ensures Total(db.rows + [r], e) ==
      var t := Total(db.rows, e);
      if r.event == e then Aggregate(t.sum + r.stars, t.count + 1) else t
    {
      TotalSnoc(db.rows, r, e);
    }
    assert forall i :: 0 <= i < |db.rows| ==> db.rows[i] in db.rows;
  }

  lemma {:induction false} ApplyKeeps(db: Database, s: Step)
    requires Consistent(db)
    ensures Consistent(Apply(db, s))
  {
    match s
    case CreateEvent(e) =>
      if e !in db.aggregates {
        TotalWithoutRows(db.rows, e);
      }
    case DeleteEvent(e) => DeleteKeeps(db, e);
    case Begin(_, _, _, r) =>
    case RollBack(n) =>
    case Commit(n) =>
      if n < |db.pending| {
        CommitKeeps(db, n);
      }
  }

  lemma {:induction false} CommitKeeps(db: Database, n: nat)
    requires Consistent(db) && n < |db.pending|
    ensures Consistent(Apply(db, Commit(n)))
  {
    var r, rest := db.pending[n], db.(pending := Without(db.pending, n));
    assert Consistent(rest);
    if !TicketRated(db.rows, r.ticket) && r.event in db.aggregates {
      InsertKeeps(rest, r);
    }
  }

  /** After every run, the aggregates of every event are the sum and number of its rating rows. */
  lemma {:induction false} AggregatesExact(steps: seq<Step>)
    ensures Consistent(Run(steps))
  {
    if steps == [] {
    } else {
      AggregatesExact(steps[..|steps| - 1]);
      ApplyKeeps(Run(steps[..|steps| - 1]), steps[|steps| - 1]);
    }
  }

  lemma {:induction false} TotalBounds(rows: seq<Rating>, e: string)
    requires InRange(rows)
    ensures 0 <= Total(rows, e).count <= Total(rows, e).sum <= 5 * Total(rows, e).count
  {
    if rows == [] {
    } else {
      TotalBounds(rows[..|rows| - 1], e);
    }
  }

  /** Some step submitted this very rating, by the scanned ticket of an event that was then listed and over. */
  ghost predicate Checked(steps: seq<Step>, r: Rating) {
    exists k :: 0 <= k < |steps| && Submits(steps[k], r)
  }

  predicate Submits(s: Step, r: Rating) {
    && s.Begin? && s.rating == r && 1 <= r.stars <= 5
    && r.event in s.listed && r.event in s.ended
    && r.ticket in s.tickets && s.tickets[r.ticket] == Ticket(r.event, true)
  }

  /** In every run a stored or pending rating is in range and came from a ticket that was entitled to it. */
  lemma {:induction false} RatingsWereChecked(steps: seq<Step>)
    ensures forall r :: r in Run(steps).rows || r in Run(steps).pending ==> Checked(steps, r)
  {
    if steps == [] {
    } else {
      var before := steps[..|steps| - 1];
      RatingsWereChecked(before);
      forall r | Checked(before, r) ensures Checked(steps, r) {
        var k :| 0 <= k < |before| && Submits(before[k], r);
        assert Submits(steps[k], r);
      }
      NothingElseAppears(Run(before), steps[|steps| - 1]);
    }
  }

  lemma {:induction false} NothingElseAppears(db: Database, s: Step)
    ensures forall r :: r in Apply(db, s).rows || r in Apply(db, s).pending ==>
      r in db.rows || r in db.pending || Submits(s, r)
  {
    if s.DeleteEvent? {
      OthersKept(db.rows, s.event);
    }
  }

  /** A submission is let through exactly when the ticket is entitled to it and has no rating yet. */
  lemma {:induction false} BeginsIff(db: Database, s: Step)
    requires s.Begin?
    ensures Apply(db, s) ==
      if Submits(s, s.rating) && !TicketRated(db.rows, s.rating.ticket) then db.(pending := db.pending + [s.rating])
      else db
  {
  }

  /** A refusal is for something that is wrong with the submission. */
  lemma {:induction false} RefusalsAreTrue(listed: set<string>, ended: set<string>, tickets: map<string, Ticket>,
                                           r: Rating)
    requires Check(listed, ended, tickets, r).Err?
    ensures
      match Check(listed, ended, tickets, r).error
      case BadRating => r.stars !in {1, 2, 3, 4, 5}
      case TicketNotFound => r.ticket !in tickets
      case EventNotFound => r.event !in listed
      case WrongEvent => r.ticket in tickets && tickets[r.ticket].event != r.event
      case NotScanned => r.ticket in tickets && !tickets[r.ticket].scanned
      case NotEnded => r.event !in ended
  {
  }

  /** Whatever has happened before, the first rating of an entitled ticket is stored and counted. */
  lemma {:induction false} EntitledRatingCounts(steps: seq<Step>, s: Step)
    requires s.Begin? && Submits(s, s.rating) && s.rating.event in Run(steps).aggregates
    requires !TicketRated(Run(steps).rows, s.rating.ticket)
    ensures
      var before, after := Run(steps), Run(steps + [s, Commit(|Run(steps).pending|)]);
      var r, a := s.rating, before.aggregates[s.rating.event];
      && after.rows == before.rows + [r] && after.pending == before.pending
      && after.aggregates == before.aggregates[r.event := Aggregate(a.sum + r.stars, a.count + 1)]
  {
    var before := Run(steps);
    BeginsIff(before, s);
    RunTwo(steps, s, Commit(|before.pending|));
    DropLast(before.pending, s.rating);
  }

  lemma {:induction false} RunTwo(steps: seq<Step>, s: Step, t: Step)
    ensures Run(steps + [s, t]) == Apply(Apply(Run(steps), s), t)
  {
    assert steps + [s, t] == (steps + [s]) + [t];
    assert (steps + [s])[..|steps|] == steps;
    assert ((steps + [s]) + [t])[..|steps + [s]|] == steps + [s];
  }

  lemma {:induction false} DropLast<T>(s: seq<T>, x: T)
    ensures Without(s + [x], |s|) == s
  {
  }

  /** A submission that is rolled back leaves the database as it found it. */
  lemma {:induction false} RolledBackLeavesNothing(steps: seq<Step>, s: Step)
    requires s.Begin? && Submits(s, s.rating) && !TicketRated(Run(steps).rows, s.rating.ticket)
    ensures Run(steps + [s, RollBack(|Run(steps).pending|)]) == Run(steps)
  {
    var before := Run(steps);
    BeginsIff(before, s);
    RunTwo(steps, s, RollBack(|before.pending|));
    DropLast(before.pending, s.rating);
  }

  /** The last creation or deletion of the event is a creation. */
  ghost predicate Exists(steps: seq<Step>, e: string) {
    exists k :: 0 <= k < |steps| && steps[k] == CreateEvent(e) && DeleteEvent(e) !in steps[k..]
  }

  lemma {:induction false} ExistsNext(steps: seq<Step>, last: Step, e: string)
    ensures Exists(steps + [last], e) <==> last == CreateEvent(e) || (Exists(steps, e) && last != DeleteEvent(e))
  {
    var all := steps + [last];
    assert all[|steps|..] == [last];
    if last == CreateEvent(e) {
      assert all[|steps|] == last;
    } else if Exists(steps, e) && last != DeleteEvent(e) {
      var k :| 0 <= k < |steps| && steps[k] == CreateEvent(e) && DeleteEvent(e) !in steps[k..];
      assert all[k..] == steps[k..] + [last] && all[k] == steps[k];
    }
    if Exists(all, e) && last != CreateEvent(e) {
      var k :| 0 <= k < |all| && all[k] == CreateEvent(e) && DeleteEvent(e) !in all[k..];
      assert k < |steps| && all[k..] == steps[k..] + [last] && steps[k] == all[k];
      assert last in all[k..];
    }
  }

  lemma {:induction false} EventsExist(steps: seq<Step>, e: string)
    ensures e in Run(steps).aggregates <==> Exists(steps, e)
  {
    if steps == [] {
    } else {
      var before, last := steps[..|steps| - 1], steps[|steps| - 1];
      EventsExist(before, e);
      ExistsNext(before, last, e);
      assert steps == before + [last];
    }
  }

  /** A stored rating stays until its event is deleted. */
  lemma {:induction false} RatingsStay(steps: seq<Step>, more: seq<Step>, r: Rating)
    requires r in Run(steps).rows && DeleteEvent(r.event) !in more
    ensures r in Run(steps + more).rows
  {
    if more == [] {
      assert steps + more == steps;
    } else {
      var init, last := more[..|more| - 1], more[|more| - 1];
      RatingsStay(steps, init, r);
      assert (steps + more)[..|steps + more| - 1] == steps + init;
      assert last in more;
      RatingStays(Run(steps + init), last, r);
    }
  }

  lemma {:induction false} RatingStays(db: Database, s: Step, r: Rating)
    requires r in db.rows && s != DeleteEvent(r.event)
    ensures r in Apply(db, s).rows
  {
    if s.DeleteEvent? {
      OthersKept(db.rows, s.event);
    }
  }

  // ---------- the summary ----------

  datatype Summary = Summary(average: real, total: int, distribution: map<int, int>)

  const STARS: set<int> := {1, 2, 3, 4, 5}

  function Counts(rows: seq<Rating>, event: string): map<int, int> {
    map star | star in STARS :: WithStars(rows, event, star)
  }

  /** `GROUP BY rating ORDER BY rating`: the ratings from `from` on that occur, with how often they do. */
  function Groups(counts: map<int, int>, from: int): seq<(int, int)>
    requires counts.Keys == STARS && 1 <= from
    decreases 6 - from
  {
    if from > 5 then []
    else if counts[from] > 0 then [(from, counts[from])] + Groups(counts, from + 1)
    else Groups(counts, from + 1)
  }

  method SummarizeRatings(rows: seq<Rating>, event: string) returns (s: Summary)
    requires InRange(rows)
    ensures s.total == Total(rows, event).count
    ensures s.average == if s.total > 0 then Total(rows, event).sum as real / s.total as real else 0.0
    ensures s.distribution == Counts(rows, event)
  {
    var groups := Groups(Counts(rows, event), 1);
    GroupMembers(Counts(rows, event));
    GroupTotals(rows, event);
    var distribution := Distribution(STARS, Counts(rows, event), groups);
    var total, weighted := CountOf(groups), WeightOf(groups);
    s := Summary(if total > 0 then weighted as real / total as real else 0.0, total, distribution);
  }

  /** Zero for every star, then the count of every group. */
  method Distribution(stars: set<int>, ghost counts: map<int, int>, groups: seq<(int, int)>) returns (d: map<int, int>)
    requires counts.Keys == stars && forall star :: star in counts ==> counts[star] >= 0
    requires forall g :: g in groups <==> g.0 in stars && g.1 == counts[g.0] && g.1 > 0
    ensures d == counts
  {
    d := map star | star in stars :: 0;
    for i := 0 to |groups|
      invariant d.Keys == stars
      invariant forall star :: star in stars ==> d[star] == 0 || d[star] == counts[star]
      invariant forall j :: 0 <= j < i ==> groups[j].0 in stars && d[groups[j].0] == counts[groups[j].0]
    {
      assert groups[i] in groups;
      d := d[groups[i].0 := groups[i].1];
    }
    forall star | star in stars ensures d[star] == counts[star] {
      if counts[star] > 0 {
        assert (star, counts[star]) in groups;
      }
    }
  }

  function CountOf(groups: seq<(int, int)>): int {
    if groups == [] then 0 else groups[0].1 + CountOf(groups[1..])
  }

  function WeightOf(groups: seq<(int, int)>): int {
    if groups == [] then 0 else groups[0].0 * groups[0].1 + WeightOf(groups[1..])
  }

  lemma {:induction false} GroupsExact(counts: map<int, int>, from: int)
    requires counts.Keys == STARS && 1 <= from
    ensures forall g :: g in Groups(counts, from) <==> from <= g.0 <= 5 && g.1 == counts[g.0] && g.1 > 0
    decreases 6 - from
  {
    if from > 5 {
    } else {
      GroupsExact(counts, from + 1);
    }
  }

  lemma {:induction false} FoldStep(counts: map<int, int>, from: int)
    requires counts.Keys == STARS && 1 <= from <= 5 && counts[from] >= 0
    ensures CountOf(Groups(counts, from)) == counts[from] + CountOf(Groups(counts, from + 1))
    ensures WeightOf(Groups(counts, from)) == from * counts[from] + WeightOf(Groups(counts, from + 1))
  {
    var rest := Groups(counts, from + 1);
    assert ([(from, counts[from])] + rest)[1..] == rest;
  }

  lemma {:induction false} GroupsFold(counts: map<int, int>)
    requires counts.Keys == STARS && forall star :: star in counts ==> counts[star] >= 0
    ensures CountOf(Groups(counts, 1)) == counts[1] + counts[2] + counts[3] + counts[4] + counts[5]
    ensures WeightOf(Groups(counts, 1)) == counts[1] + 2 * counts[2] + 3 * counts[3] + 4 * counts[4] + 5 * counts[5]
  {
    FoldStep(counts, 1);
    FoldStep(counts, 2);
    FoldStep(counts, 3);
    FoldStep(counts, 4);
    FoldStep(counts, 5);
    assert Groups(counts, 6) == [];
  }

  /** The rows of an event split by their stars. */
  lemma {:induction false} StarsPartition(rows: seq<Rating>, event: string)
    requires InRange(rows)
    ensures Total(rows, event).count == WithStars(rows, event, 1) + WithStars(rows, event, 2)
      + WithStars(rows, event, 3) + WithStars(rows, event, 4) + WithStars(rows, event, 5)
    ensures Total(rows, event).sum == WithStars(rows, event, 1) + 2 * WithStars(rows, event, 2)
      + 3 * WithStars(rows, event, 3) + 4 * WithStars(rows, event, 4) + 5 * WithStars(rows, event, 5)
  {
    if rows == [] {
    } else {
      StarsPartition(rows[..|rows| - 1], event);
    }
  }

  lemma {:induction false} GroupMembers(counts: map<int, int>)
    requires counts.Keys == STARS
    ensures forall g :: g in Groups(counts, 1) <==> g.0 in STARS && g.1 == counts[g.0] && g.1 > 0
  {
    GroupsExact(counts, 1);
    assert forall n :: n in STARS <==> 1 <= n <= 5;
  }

  /** The grouped query adds up to the number and the sum of an event's ratings. */
  lemma {:induction false} GroupTotals(rows: seq<Rating>, event: string)
    requires InRange(rows)
    ensures CountOf(Groups(Counts(rows, event), 1)) == Total(rows, event).count
    ensures WeightOf(Groups(Counts(rows, event), 1)) == Total(rows, event).sum
  {
    var counts := Counts(rows, event);
    GroupsFold(counts);
    StarsPartition(rows, event);
    assert counts[1] == WithStars(rows, event, 1) && counts[2] == WithStars(rows, event, 2);
    assert counts[3] == WithStars(rows, event, 3) && counts[4] == WithStars(rows, event, 4);
    assert counts[5] == WithStars(rows, event, 5);
  }

  /** In every run the grouped summary adds up to the two stored aggregates, and the mean lies between 1 and 5. */
  lemma {:induction false} SummaryMatchesAggregates(steps: seq<Step>, event: string)
    requires event in Run(steps).aggregates
    ensures
      var a, groups := Run(steps).aggregates[event], Groups(Counts(Run(steps).rows, event), 1);
      && CountOf(groups) == a.count && WeightOf(groups) == a.sum
      && 0 <= a.count <= a.sum <= 5 * a.count
  {
    AggregatesExact(steps);
    GroupTotals(Run(steps).rows, event);
    TotalBounds(Run(steps).rows, event);
  }
}

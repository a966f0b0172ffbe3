/**
 Keyset pagination of the event listings.  A page is the first rows of the
 sorted listing that satisfy the cursor clause; one row beyond the page is
 fetched to see whether more follow, popped, and made into the next cursor.
 Rows stand for those that pass the other WHERE filters; the database is the
 relational meaning of WHERE, ORDER BY and LIMIT over them.
 */
module KeysetPaging {
  import opened Wrappers
  import opened Sequences
  import opened Arithmetic

  datatype Row = Row(id: int, startTime: int, createdAt: int, minted: int, ratings: int, price: int, endTime: int)

  datatype Column = StartTime | CreatedAt | MintedTickets | CountOfRatings | MinTicketPrice | EndTime

  datatype SortBy = ByStartTime | ByCreatedAt | ByPopularity | ByCountOfRatings | ByPrice

  datatype Direction = Asc | Desc

  datatype Op = Less | Greater

  datatype OrderBy = OrderBy(column: Column, direction: Direction, tiebreak: Direction)

  datatype CursorClause = CursorClause(column: Column, keyOp: Op, idOp: Op)

  datatype Cursor = Cursor(startTime: int, id: int, createdAt: Option<int>, minted: Option<int>,
                           ratings: Option<int>, price: Option<int>)

  /** The values bound to the two parameters of a cursor clause. */
  datatype Position = Position(key: int, id: int)

  function Key(column: Column, r: Row): int {
    match column
    case StartTime => r.startTime
    case CreatedAt => r.createdAt
    case MintedTickets => r.minted
    case CountOfRatings => r.ratings
    case MinTicketPrice => r.price
    case EndTime => r.endTime
  }

  // ---------- the clause builders ----------

  function BuildOrderBy(sortBy: SortBy, order: Direction): OrderBy {
    var (column, tiebreak) :=
      match sortBy
      case ByStartTime => (StartTime, order)
      case ByCreatedAt => (CreatedAt, order)
      case ByPopularity => (MintedTickets, order)
      case ByCountOfRatings => (CountOfRatings, Asc)
      case ByPrice => (MinTicketPrice, order);
    OrderBy(column, order, tiebreak)
  }

  function BuildCursorClause(sortBy: SortBy, order: Direction): CursorClause {
    match (sortBy, order)
    case (ByStartTime, Asc) => CursorClause(StartTime, Greater, Greater)
    case (ByStartTime, Desc) => CursorClause(StartTime, Less, Less)
    case (ByCreatedAt, Asc) => CursorClause(CreatedAt, Greater, Greater)
    case (ByCreatedAt, Desc) => CursorClause(CreatedAt, Less, Less)
    case (ByPopularity, Asc) => CursorClause(MintedTickets, Greater, Greater)
    case (ByPopularity, Desc) => CursorClause(MintedTickets, Less, Less)
    case (ByCountOfRatings, Asc) => CursorClause(CountOfRatings, Greater, Greater)
    case (ByCountOfRatings, Desc) => CursorClause(CountOfRatings, Less, Less)
    case (ByPrice, Asc) => CursorClause(MinTicketPrice, Greater, Greater)
    case (ByPrice, Desc) => CursorClause(MinTicketPrice, Less, Less)
  }

  function EncodeCursor(r: Row): Cursor {
    Cursor(r.startTime, r.id, Some(r.createdAt), Some(r.minted), Some(r.ratings), Some(r.price))
  }

  /** What `list_events` binds; a popularity or rating-count sort reads the minted tickets. */
  function Bind(sortBy: SortBy, c: Cursor): Result<Position, string> {
    match sortBy
    case ByStartTime => Ok(Position(c.startTime, c.id))
    case ByCreatedAt =>
      if c.createdAt.Some? then Ok(Position(c.createdAt.value, c.id))
      else Err("Cursor is missing created_at for created_at sort")
    case ByPrice =>
      if c.price.Some? then Ok(Position(c.price.value, c.id))
      else Err("Cursor is missing min_ticket_price for price sort")
    case _ =>
      if c.minted.Some? then Ok(Position(c.minted.value, c.id))
      else Err("Cursor is missing minted_tickets for popularity/count_of_ratings sort")
  }

  /** The listings with one fixed order, whose cursors hold just the key and the id. */
  datatype Listing = PastEvents | Attendees | CategoryEvents

  function OrderOf(l: Listing): OrderBy {
    match l
    case PastEvents => OrderBy(EndTime, Desc, Desc)
    case Attendees => OrderBy(CreatedAt, Asc, Asc)
    case CategoryEvents => OrderBy(StartTime, Asc, Asc)
  }

  function ClauseOf(l: Listing): CursorClause {
    match l
    case PastEvents => CursorClause(EndTime, Less, Less)
    case Attendees => CursorClause(CreatedAt, Greater, Greater)
    case CategoryEvents => CursorClause(StartTime, Greater, Greater)
  }

  // ---------- the meaning of the clauses ----------

  predicate Precedes(d: Direction, x: int, y: int) {
    match d
    case Asc => x < y
    case Desc => x > y
  }

  predicate Before(o: OrderBy, a: Row, b: Row) {
    var x, y := Key(o.column, a), Key(o.column, b);
    Precedes(o.direction, x, y) || (x == y && Precedes(o.tiebreak, a.id, b.id))
  }

  predicate Holds(op: Op, x: int, y: int) {
    match op
    case Less => x < y
    case Greater => x > y
  }

  predicate Selects(c: CursorClause, at: Position, r: Row) {
    var k := Key(c.column, r);
    Holds(c.keyOp, k, at.key) || (k == at.key && Holds(c.idOp, r.id, at.id))
  }

  predicate Follows(op: Op, d: Direction) {
    op == if d.Asc? then Greater else Less
  }

  /** The clause asks for the column and directions of the order. */
  predicate Aligned(o: OrderBy, c: CursorClause) {
    o.column == c.column && Follows(c.keyOp, o.direction) && Follows(c.idOp, o.tiebreak)
  }

  function PositionOf(column: Column, r: Row): Position {
    Position(Key(column, r), r.id)
  }

  /** For every sort but the rating count, the bound cursor selects exactly the rows after its own row. */
  lemma {:induction false} CursorSelectsRowsAfter(sortBy: SortBy, order: Direction, c: Row, r: Row)
    requires !sortBy.ByCountOfRatings?
    ensures
      var o, clause, at := BuildOrderBy(sortBy, order), BuildCursorClause(sortBy, order), Bind(sortBy, EncodeCursor(c));
      at == Ok(PositionOf(o.column, c)) && (Selects(clause, at.value, r) <==> Before(o, c, r))
  {
  }

  predicate Lexicographic(x: int, y: int, i: int, j: int) {
    x < y || (x == y && i < j)
  }

  /** The order a client asks `list_events` for, in the events' own fields. */
  predicate Requested(sortBy: SortBy, order: Direction, a: Row, b: Row) {
    match (sortBy, order)
    case (ByStartTime, Asc) => Lexicographic(a.startTime, b.startTime, a.id, b.id)
    case (ByStartTime, Desc) => Lexicographic(b.startTime, a.startTime, b.id, a.id)
    case (ByCreatedAt, Asc) => Lexicographic(a.createdAt, b.createdAt, a.id, b.id)
    case (ByCreatedAt, Desc) => Lexicographic(b.createdAt, a.createdAt, b.id, a.id)
    case (ByPopularity, Asc) => Lexicographic(a.minted, b.minted, a.id, b.id)
    case (ByPopularity, Desc) => Lexicographic(b.minted, a.minted, b.id, a.id)
    case (ByCountOfRatings, Asc) => Lexicographic(a.ratings, b.ratings, a.id, b.id)
    case (ByCountOfRatings, Desc) => Lexicographic(b.ratings, a.ratings, a.id, b.id)
    case (ByPrice, Asc) => Lexicographic(a.price, b.price, a.id, b.id)
    case (ByPrice, Desc) => Lexicographic(b.price, a.price, b.id, a.id)
  }

  /** Past events end latest first; attendees and category events come oldest first. */
  predicate Listed(l: Listing, a: Row, b: Row) {
    match l
    case PastEvents => Lexicographic(b.endTime, a.endTime, b.id, a.id)
    case Attendees => Lexicographic(a.createdAt, b.createdAt, a.id, b.id)
    case CategoryEvents => Lexicographic(a.startTime, b.startTime, a.id, b.id)
  }

  lemma {:induction false} ClausesOrderFields(sortBy: SortBy, order: Direction, l: Listing, a: Row, b: Row)
    ensures Before(BuildOrderBy(sortBy, order), a, b) <==> Requested(sortBy, order, a, b)
    ensures Before(OrderOf(l), a, b) <==> Listed(l, a, b)
  {
  }

  /** Every sort returns all the rows, in the requested order of their fields. */
  lemma {:induction false} RowsAsRequested(sortBy: SortBy, order: Direction, rows: seq<Row>)
    requires DistinctIds(rows)
    ensures
      var s := Sort(BuildOrderBy(sortBy, order), rows);
      && multiset(s) == multiset(rows)
      && forall i, j :: 0 <= i < j < |s| ==> Requested(sortBy, order, s[i], s[j])
  {
    var s := Sort(BuildOrderBy(sortBy, order), rows);
    SortCorrect(BuildOrderBy(sortBy, order), rows);
    forall i, j | 0 <= i < j < |s| ensures Requested(sortBy, order, s[i], s[j]) {
      ClausesOrderFields(sortBy, order, PastEvents, s[i], s[j]);
    }
  }

  lemma {:induction false} RowsAsListed(l: Listing, rows: seq<Row>)
    requires DistinctIds(rows)
    ensures
      var s := Sort(OrderOf(l), rows);
      && multiset(s) == multiset(rows)
      && forall i, j :: 0 <= i < j < |s| ==> Listed(l, s[i], s[j])
  {
    var s := Sort(OrderOf(l), rows);
    SortCorrect(OrderOf(l), rows);
    forall i, j | 0 <= i < j < |s| ensures Listed(l, s[i], s[j]) {
      ClausesOrderFields(ByStartTime, Asc, l, s[i], s[j]);
    }
  }

  /** A cursor is refused exactly when it lacks the field its sort binds. */
  lemma {:induction false} BindsIff(sortBy: SortBy, c: Cursor)
    ensures Bind(sortBy, c).Err? <==>
      || (sortBy.ByCreatedAt? && c.createdAt.None?) || (sortBy.ByPrice? && c.price.None?)
      || ((sortBy.ByPopularity? || sortBy.ByCountOfRatings?) && c.minted.None?)
    ensures Bind(sortBy, c).Ok? ==> Bind(sortBy, c).value.id == c.id
  {
  }

  /** A cursor holds every field of its row but the end time. */
  lemma {:induction false} CursorIdentifies(a: Row, b: Row)
    ensures EncodeCursor(a) == EncodeCursor(b) <==> a.(endTime := b.endTime) == b
  {
  }

  lemma {:induction false} ListingsAligned(sortBy: SortBy, order: Direction, l: Listing)
    ensures Aligned(BuildOrderBy(sortBy, order), BuildCursorClause(sortBy, order))
      <==> !(sortBy.ByCountOfRatings? && order.Desc?)
    ensures Aligned(OrderOf(l), ClauseOf(l))
  {
  }

  /**
   Descending by rating count the id tiebreakers point opposite ways: even a
   correctly bound cursor is right about a row exactly when the row is not in
   the cursor row's tie, or is the cursor row.
   */
  lemma {:induction false} RatingsDescendingExact(c: Row, r: Row)
    ensures
      (Selects(BuildCursorClause(ByCountOfRatings, Desc), PositionOf(CountOfRatings, c), r)
       <==> Before(BuildOrderBy(ByCountOfRatings, Desc), c, r))
      <==> (r.ratings != c.ratings || r.id == c.id)
  {
  }

  /** The cursor actually bound for a rating-count sort holds minted tickets and loses rows in either direction. */
  lemma {:induction false} RatingsCursorMisses(order: Direction) returns (c: Row, r: Row)
    ensures Bind(ByCountOfRatings, EncodeCursor(c)).Ok?
    ensures Before(BuildOrderBy(ByCountOfRatings, order), c, r)
    ensures !Selects(BuildCursorClause(ByCountOfRatings, order), Bind(ByCountOfRatings, EncodeCursor(c)).value, r)
  {
    c := Row(1, 0, 0, if order.Asc? then 9 else 0, 3, 0, 0);
    r := Row(2, 0, 0, 0, if order.Asc? then 4 else 2, 0, 0);
  }

  /** That cursor is right about every row exactly when the order ascends and its two counts happen to agree. */
  lemma {:induction false} RatingsCursorRightIff(order: Direction, c: Row)
    ensures
      var at := Bind(ByCountOfRatings, EncodeCursor(c)).value;
      (forall r: Row :: Selects(BuildCursorClause(ByCountOfRatings, order), at, r)
                        <==> Before(BuildOrderBy(ByCountOfRatings, order), c, r))
      <==> order.Asc? && c.minted == c.ratings
  {
    var o, clause, at := BuildOrderBy(ByCountOfRatings, order), BuildCursorClause(ByCountOfRatings, order),
                         Position(c.minted, c.id);
    var mistaken := Row(if c.minted == c.ratings then c.id + 1 else c.id, 0, 0, 0,
                        if order.Asc? == (c.minted < c.ratings) then c.ratings else c.minted, 0, 0);
    if !(order.Asc? && c.minted == c.ratings) {
      assert Selects(clause, at, mistaken) != Before(o, c, mistaken);
    }
  }

  // ---------- WHERE, ORDER BY, LIMIT ----------

  predicate DistinctIds(rows: seq<Row>) {
    forall i, j :: 0 <= i < j < |rows| ==> rows[i].id != rows[j].id
  }

  predicate Sorted(o: OrderBy, s: seq<Row>) {
    forall i, j :: 0 <= i < j < |s| ==> Before(o, s[i], s[j])
  }

  function Insert(o: OrderBy, r: Row, s: seq<Row>): seq<Row> {
    if s == [] || Before(o, r, s[0]) then [r] + s else [s[0]] + Insert(o, r, s[1..])
  }

  function Sort(o: OrderBy, rows: seq<Row>): seq<Row> {
    if rows == [] then [] else Insert(o, rows[0], Sort(o, rows[1..]))
  }

  function Where(c: CursorClause, rows: seq<Row>, at: Option<Position>): seq<Row> {
    if at.None? || rows == [] then rows
    else (if Selects(c, at.value, rows[0]) then [rows[0]] else []) + Where(c, rows[1..], at)
  }

  /** The rows from a cursor on, in listing order. */
  function Remaining(o: OrderBy, c: CursorClause, rows: seq<Row>, at: Option<Position>): seq<Row> {
    Sort(o, Where(c, rows, at))
  }

  function Limit(s: seq<Row>, n: nat): seq<Row> {
    if |s| <= n then s else s[..n]
  }

  lemma {:induction false} InsertContents(o: OrderBy, r: Row, s: seq<Row>)
    ensures multiset(Insert(o, r, s)) == multiset(s) + multiset{r}
    ensures |Insert(o, r, s)| == |s| + 1
  {
    if s == [] || Before(o, r, s[0]) {
    } else {
      InsertContents(o, r, s[1..]);
      assert s == [s[0]] + s[1..];
    }
  }

  lemma {:induction false} InsertSorted(o: OrderBy, r: Row, s: seq<Row>)
    requires Sorted(o, s) && forall x :: x in s ==> x.id != r.id
    ensures Sorted(o, Insert(o, r, s))
  {
    if s != [] && !Before(o, r, s[0]) {
      var rest := Insert(o, r, s[1..]);
      InsertSorted(o, r, s[1..]);
      InsertContents(o, r, s[1..]);
      assert s[0] in s;
      forall x | x in rest ensures Before(o, s[0], x) {
        assert x in multiset(rest);
        assert x == r || x in s[1..];
      }
      SortedCons(o, s[0], rest);
    } else {
      SortedCons(o, r, s);
    }
  }

  lemma {:induction false} SortedCons(o: OrderBy, r: Row, s: seq<Row>)
    requires Sorted(o, s) && (s == [] || Before(o, r, s[0]) || forall x :: x in s ==> Before(o, r, x))
    ensures Sorted(o, [r] + s)
  {
    forall i | 0 <= i < |s| ensures Before(o, r, s[i]) {
      assert s[i] in s;
    }
  }

  lemma {:induction false} NewIdAfter(rows: seq<Row>, s: seq<Row>)
    requires DistinctIds(rows) && rows != [] && multiset(s) == multiset(rows[1..])
    ensures forall x :: x in s ==> x.id != rows[0].id
  {
    forall x | x in s ensures x.id != rows[0].id {
      assert x in multiset(rows[1..]);
    }
  }

  /** ORDER BY: a permutation of the rows, strictly increasing because ids are unique. */
  lemma {:induction false} SortCorrect(o: OrderBy, rows: seq<Row>)
    requires DistinctIds(rows)
    ensures Sorted(o, Sort(o, rows))
    ensures multiset(Sort(o, rows)) == multiset(rows)
    ensures |Sort(o, rows)| == |rows|
  {
    if rows == [] {
    } else {
      SortCorrect(o, rows[1..]);
      var s := Sort(o, rows[1..]);
      NewIdAfter(rows, s);
      InsertSorted(o, rows[0], s);
      InsertContents(o, rows[0], s);
      assert rows == [rows[0]] + rows[1..];
    }
  }

  lemma {:induction false} WhereCorrect(c: CursorClause, rows: seq<Row>, at: Option<Position>)
    requires DistinctIds(rows)
    ensures DistinctIds(Where(c, rows, at))
    ensures forall r :: r in Where(c, rows, at) <==> r in rows && (at.Some? ==> Selects(c, at.value, r))
  {
    if at.None? || rows == [] {
    } else {
      WhereCorrect(c, rows[1..], at);
      var rest := Where(c, rows[1..], at);
      forall x | x in rest ensures x.id != rows[0].id {
        assert x in rows[1..];
      }
      assert rows == [rows[0]] + rows[1..];
    }
  }

  /** Two sorted listings of the same rows are the same listing. */
  lemma {:induction false} SortedUnique(o: OrderBy, s: seq<Row>, t: seq<Row>)
    requires Sorted(o, s) && Sorted(o, t)
    requires forall r :: r in s <==> r in t
    ensures s == t
  {
    assert t != [] ==> t[0] in t;
    if s == [] {
    } else {
      assert s[0] in s;
      assert s[0] == t[0];
      forall r ensures r in s[1..] <==> r in t[1..] {
        assert r in s[1..] ==> r in s && r != s[0];
        assert r in t[1..] ==> r in t && r != t[0];
      }
      SortedUnique(o, s[1..], t[1..]);
      assert s == [s[0]] + s[1..] && t == [t[0]] + t[1..];
    }
  }

  lemma {:induction false} RemainingCorrect(o: OrderBy, c: CursorClause, rows: seq<Row>, at: Option<Position>)
    requires DistinctIds(rows)
    ensures Sorted(o, Remaining(o, c, rows, at))
    ensures forall r :: r in Remaining(o, c, rows, at) <==> r in rows && (at.Some? ==> Selects(c, at.value, r))
  {
    WhereCorrect(c, rows, at);
    var kept := Where(c, rows, at);
    SortCorrect(o, kept);
    forall r ensures r in Sort(o, kept) <==> r in kept {
      assert r in multiset(Sort(o, kept)) <==> r in multiset(kept);
    }
  }

  /** A cursor made of the row at some rank restarts the listing just after that rank. */
  lemma {:induction false} CursorRestarts(o: OrderBy, c: CursorClause, rows: seq<Row>, at: Option<Position>, rank: nat)
    requires Aligned(o, c) && DistinctIds(rows) && rank < |Remaining(o, c, rows, at)|
    ensures
      var s := Remaining(o, c, rows, at);
      Remaining(o, c, rows, Some(PositionOf(o.column, s[rank]))) == s[rank + 1..]
  {
    var s := Remaining(o, c, rows, at);
    var next := Some(PositionOf(o.column, s[rank]));
    var t := Remaining(o, c, rows, next);
    RemainingCorrect(o, c, rows, at);
    RemainingCorrect(o, c, rows, next);
    forall r ensures r in t <==> r in s[rank + 1..] {
      RestOfSorted(o, s, rank, r);
      assert s[rank] in s;
      if Before(o, s[rank], r) {
        AfterStaysSelected(o, c, at, s[rank], r);
      }
    }
    SortedUnique(o, t, s[rank + 1..]);
  }

  lemma {:induction false} RestOfSorted(o: OrderBy, s: seq<Row>, rank: nat, r: Row)
    requires Sorted(o, s) && rank < |s|
    ensures r in s[rank + 1..] <==> r in s && Before(o, s[rank], r)
  {
    if r in s && Before(o, s[rank], r) {
      var i :| 0 <= i < |s| && s[i] == r;
      assert i > rank;
      assert s[rank + 1..][i - rank - 1] == r;
    }
  }

  lemma {:induction false} AfterStaysSelected(o: OrderBy, c: CursorClause, at: Option<Position>, mid: Row, r: Row)
    requires Aligned(o, c) && Selects(c, PositionOf(o.column, mid), r)
    requires at.Some? ==> Selects(c, at.value, mid)
    ensures at.Some? ==> Selects(c, at.value, r)
  {
  }

  // ---------- one page ----------

  datatype Page = Page(items: seq<Row>, next: Option<Cursor>)

  const MAX_PAGE_SIZE: nat := 100

  function Distance(x: nat, y: nat): nat {
    if x < y then y - x else x - y
  }

  /** The admissible size closest to the one asked for. */
  function PageSize(limit: nat): (size: nat)
    ensures 1 <= size <= 100
    ensures forall n: nat :: 1 <= n <= 100 ==> Distance(size, limit) <= Distance(n, limit)
  {
    if limit < 1 then 1 else if limit > MAX_PAGE_SIZE then MAX_PAGE_SIZE else limit
  }

  /** Fetch one row more than the page; pop it if it is there, to become the cursor. */
  method FetchPage(o: OrderBy, c: CursorClause, rows: seq<Row>, at: Option<Position>, pageSize: nat)
    returns (items: seq<Row>, last: Option<Row>)
    ensures
      var s := Remaining(o, c, rows, at);
      items == Limit(s, pageSize) && last == if |s| > pageSize then Some(s[pageSize]) else None
  {
    items := Limit(Sort(o, Where(c, rows, at)), pageSize + 1);
    last := None;
    if |items| > pageSize {
      last := Some(items[|items| - 1]);
      items := items[..|items| - 1];
    }
  }

  /** Where a request starts: at the beginning, at the bound cursor, or not at all. */
  function StartOf(sortBy: SortBy, cursor: Option<Cursor>): Result<Option<Position>, string> {
    if cursor.None? then Ok(None)
    else
      match Bind(sortBy, cursor.value)
      case Ok(at) => Ok(Some(at))
      case Err(e) => Err(e)
  }

  /** `list_events` for a validated sort, after filtering. */
  method ListEvents(rows: seq<Row>, sortBy: SortBy, order: Direction, cursor: Option<Cursor>, limit: nat)
    returns (r: Result<Page, string>)
    ensures r.Err? <==> StartOf(sortBy, cursor).Err?
    ensures r.Err? ==> r.error == StartOf(sortBy, cursor).error
    ensures r.Ok? ==>
      var o, c, p := BuildOrderBy(sortBy, order), BuildCursorClause(sortBy, order), PageSize(limit);
      var s := Remaining(o, c, rows, StartOf(sortBy, cursor).value);
      r.value == Page(Limit(s, p), if |s| > p then Some(EncodeCursor(s[p])) else None)
  {
    var at: Option<Position> := None;
    if cursor.Some? {
      var bound := Bind(sortBy, cursor.value);
      if bound.Err? {
        return Err(bound.error);
      }
      at := Some(bound.value);
    }
    var o, c := BuildOrderBy(sortBy, order), BuildCursorClause(sortBy, order);
    var items, last := FetchPage(o, c, rows, at, PageSize(limit));
    r := Ok(Page(items, if last.Some? then Some(EncodeCursor(last.value)) else None));
  }

  // ---------- following next_cursor to the end ----------

  /** The rows a client collects from `at` on; the next cursor is the popped row. */
  ghost function Walk(o: OrderBy, c: CursorClause, rows: seq<Row>, at: Option<Position>, p: nat): seq<Row>
    requires Aligned(o, c) && DistinctIds(rows)
    decreases |Remaining(o, c, rows, at)|
  {
    var s := Remaining(o, c, rows, at);
    if |s| <= p then s
    else
      CursorRestarts(o, c, rows, at, p);
      Limit(s, p) + Walk(o, c, rows, Some(PositionOf(o.column, s[p])), p)
  }

  /** The same walk with the cursor of the last row kept, as the pagination module documents it. */
  ghost function DocumentedWalk(o: OrderBy, c: CursorClause, rows: seq<Row>, at: Option<Position>, p: nat): seq<Row>
    requires Aligned(o, c) && DistinctIds(rows) && p >= 1
    decreases |Remaining(o, c, rows, at)|
  {
    var s := Remaining(o, c, rows, at);
    if |s| <= p then s
    else
      CursorRestarts(o, c, rows, at, p - 1);
      Limit(s, p) + DocumentedWalk(o, c, rows, Some(PositionOf(o.column, s[p - 1])), p)
  }

  /** The rows of `s` from rank `r` on whose rank is not `p` modulo `p + 1`, in order. */
  function Survivors(s: seq<Row>, p: nat, r: nat): seq<Row>
    requires r <= |s|
    decreases |s| - r
  {
    if r == |s| then []
    else (if r % (p + 1) == p then [] else [s[r]]) + Survivors(s, p, r + 1)
  }

  lemma {:induction false} ModSplit(r: nat, q: nat, m: nat, i: nat)
    requires m > 0 && r == q * m && i < m
    ensures (r + i) % m == i
  {
    DivModUnique(r + i, m, q, i);
  }

  lemma {:induction false} SurvivorsStep(s: seq<Row>, p: nat, start: nat, q: nat, i: nat)
    requires start == q * (p + 1) && i <= p && start + i < |s|
    ensures Survivors(s, p, start + i) == (if i == p then [] else [s[start + i]]) + Survivors(s, p, start + i + 1)
  {
    ModSplit(start, q, p + 1, i);
  }

  /** Within the page that starts at rank `start`, everything up to the popped rank survives. */
  lemma {:induction false} SurvivorsOfPage(s: seq<Row>, p: nat, start: nat, q: nat, i: nat)
    requires start == q * (p + 1) && i <= p && start + i <= |s|
    ensures Survivors(s, p, start + i) ==
      if |s| - start <= p then s[start + i..]
      else s[start + i..start + p] + Survivors(s, p, start + p + 1)
    decreases p - i
  {
    if start + i == |s| {
    } else {
      SurvivorsStep(s, p, start, q, i);
      if i < p {
        SurvivorsOfPage(s, p, start, q, i + 1);
        if |s| - start <= p {
          assert s[start + i..] == [s[start + i]] + s[start + i + 1..];
        } else {
          var first, kept := [s[start + i]], s[start + i + 1..start + p];
          assert s[start + i..start + p] == first + kept;
          Associate(first, kept, Survivors(s, p, start + p + 1));
        }
      }
    }
  }

  /** The walk from a page boundary collects exactly the surviving ranks. */
  lemma {:induction false} WalkFromBoundary(o: OrderBy, c: CursorClause, rows: seq<Row>, at: Option<Position>,
                                            p: nat, s: seq<Row>, start: nat, q: nat)
    requires Aligned(o, c) && DistinctIds(rows)
    requires start == q * (p + 1) && start <= |s| && Remaining(o, c, rows, at) == s[start..]
    ensures Walk(o, c, rows, at, p) == Survivors(s, p, start)
    decreases |s| - start
  {
    NextBoundary(s, p, start, q);
    var t := s[start..];
    if |t| <= p {
    } else {
      WalkStep(o, c, rows, at, p);
      CursorRestarts(o, c, rows, at, p);
      WalkFromBoundary(o, c, rows, Some(PositionOf(o.column, t[p])), p, s, start + p + 1, q + 1);
    }
  }

  lemma {:induction false} NextBoundary(s: seq<Row>, p: nat, start: nat, q: nat)
    requires start == q * (p + 1) && start <= |s|
    ensures
      var t := s[start..];
      if |t| <= p then Survivors(s, p, start) == t
      else
        && Survivors(s, p, start) == t[..p] + Survivors(s, p, start + p + 1)
        && t[p + 1..] == s[start + p + 1..] && start + p + 1 == (q + 1) * (p + 1)
  {
    SurvivorsOfPage(s, p, start, q, 0);
    var t := s[start..];
    if |t| > p {
      assert t[..p] == s[start..start + p];
    }
  }

  lemma {:induction false} SurvivorsCount(s: seq<Row>, p: nat, r: nat)
    requires r <= |s|
    ensures |Survivors(s, p, r)| == (|s| - |s| / (p + 1)) - (r - r / (p + 1))
    decreases |s| - r
  {
    if r == |s| {
    } else {
      SurvivorsCount(s, p, r + 1);
      DivStep(r, p + 1);
    }
  }

  lemma {:induction false} DivStep(r: nat, m: nat)
    requires m > 0
    ensures (r + 1) / m == if r % m == m - 1 then r / m + 1 else r / m
  {
    var q, i := r / m, r % m;
    assert r == q * m + i;
    if i == m - 1 {
      assert r + 1 == (q + 1) * m + 0;
      DivModUnique(r + 1, m, q + 1, 0);
    } else {
      DivModUnique(r + 1, m, q, i + 1);
    }
  }

  lemma {:induction false} SurvivorsContain(o: OrderBy, s: seq<Row>, p: nat, r: nat, k: nat)
    requires Sorted(o, s) && r <= |s| && k < |s|
    ensures s[k] in Survivors(s, p, r) <==> k >= r && k % (p + 1) != p
    decreases |s| - r
  {
    if r == |s| {
    } else {
      SurvivorsContain(o, s, p, r + 1, k);
      var kept := if r % (p + 1) == p then [] else [s[r]];
      assert Survivors(s, p, r) == kept + Survivors(s, p, r + 1);
      if k != r {
        SortedDistinct(o, s, r, k);
        assert s[k] !in kept;
      } else {
        assert s[k] in kept <==> r % (p + 1) != p;
      }
    }
  }

  lemma {:induction false} SortedDistinct(o: OrderBy, s: seq<Row>, i: nat, j: nat)
    requires Sorted(o, s) && i < |s| && j < |s| && i != j
    ensures s[i] != s[j]
  {
  }

  lemma {:induction false} SurvivorsSorted(o: OrderBy, s: seq<Row>, p: nat, r: nat)
    requires Sorted(o, s) && r <= |s|
    ensures Sorted(o, Survivors(s, p, r))
    ensures forall x :: x in Survivors(s, p, r) ==> x in s[r..]
    decreases |s| - r
  {
    if r == |s| {
    } else {
      SurvivorsSorted(o, s, p, r + 1);
      assert s[r..] == [s[r]] + s[r + 1..];
      if r % (p + 1) != p {
        forall x | x in s[r + 1..] ensures Before(o, s[r], x) {
        }
        SortedCons(o, s[r], Survivors(s, p, r + 1));
      } else {
        assert Survivors(s, p, r) == Survivors(s, p, r + 1);
      }
    }
  }

  /**
   The rows collected are, in listing order and without repeats, exactly those
   whose rank is not `p` modulo `p + 1`: one row in every `p + 1` is lost, and
   nothing is lost just when one page holds the whole listing.
   */
  ghost predicate LosesEveryNth(o: OrderBy, rows: seq<Row>, p: nat, walked: seq<Row>) {
    var s := Sort(o, rows);
    && |s| == |rows| && Sorted(o, s)
    && walked == Survivors(s, p, 0) && Sorted(o, walked)
    && |walked| == |rows| - |rows| / (p + 1)
    && (forall k :: 0 <= k < |s| ==> (s[k] in walked <==> k % (p + 1) != p))
    && (walked == s <==> |rows| <= p)
  }

  lemma {:induction false} WalkExact(o: OrderBy, c: CursorClause, rows: seq<Row>, p: nat)
    requires Aligned(o, c) && DistinctIds(rows)
    ensures LosesEveryNth(o, rows, p, Walk(o, c, rows, None, p))
  {
    var s := Sort(o, rows);
    SortCorrect(o, rows);
    assert s[0..] == s;
    WalkFromBoundary(o, c, rows, None, p, s, 0, 0);
    SurvivorsCount(s, p, 0);
    SurvivorsSorted(o, s, p, 0);
    forall k | 0 <= k < |s| ensures s[k] in Survivors(s, p, 0) <==> k % (p + 1) != p {
      SurvivorsContain(o, s, p, 0, k);
    }
    DivModBound(|rows|, p + 1);
  }

  lemma {:induction false} WalkStep(o: OrderBy, c: CursorClause, rows: seq<Row>, at: Option<Position>, p: nat)
    requires Aligned(o, c) && DistinctIds(rows) && |Remaining(o, c, rows, at)| > p
    ensures
      var s := Remaining(o, c, rows, at);
      var next := Some(PositionOf(o.column, s[p]));
      && Walk(o, c, rows, at, p) == s[..p] + Walk(o, c, rows, next, p)
      && |Remaining(o, c, rows, next)| < |s|
  {
    CursorRestarts(o, c, rows, at, p);
  }

  /** A client of `list_events` that sends back `next_cursor` until there is none, over an unchanging table. */
  method CollectEvents(rows: seq<Row>, sortBy: SortBy, order: Direction, limit: nat) returns (all: seq<Row>)
    requires DistinctIds(rows) && !sortBy.ByCountOfRatings?
    ensures LosesEveryNth(BuildOrderBy(sortBy, order), rows, PageSize(limit), all)
    ensures forall i, j :: 0 <= i < j < |all| ==> Requested(sortBy, order, all[i], all[j])
  {
    ghost var o, c, p := BuildOrderBy(sortBy, order), BuildCursorClause(sortBy, order), PageSize(limit);
    ListingsAligned(sortBy, order, PastEvents);
    var cursor: Option<Cursor> := None;
    ghost var at: Option<Position> := None;
    all := [];
    while true
      invariant StartOf(sortBy, cursor) == Ok(at)
      invariant all + Walk(o, c, rows, at, p) == Walk(o, c, rows, None, p)
      decreases |Remaining(o, c, rows, at)|
    {
      var page := ListEvents(rows, sortBy, order, cursor, limit);
      ghost var before, s := all, Remaining(o, c, rows, at);
      all := all + page.value.items;
      if page.value.next.None? {
        break;
      }
      WalkStep(o, c, rows, at, p);
      CursorSelectsRowsAfter(sortBy, order, s[p], s[p]);
      cursor, at := page.value.next, Some(PositionOf(o.column, s[p]));
      Associate(before, page.value.items, Walk(o, c, rows, at, p));
    }
    WalkExact(o, c, rows, p);
    forall i, j | 0 <= i < j < |all| ensures Requested(sortBy, order, all[i], all[j]) {
      ClausesOrderFields(sortBy, order, PastEvents, all[i], all[j]);
    }
  }

  /** The same for the listings with one fixed order. */
  method CollectListing(l: Listing, rows: seq<Row>, limit: nat) returns (all: seq<Row>)
    requires DistinctIds(rows)
    ensures LosesEveryNth(OrderOf(l), rows, PageSize(limit), all)
    ensures forall i, j :: 0 <= i < j < |all| ==> Listed(l, all[i], all[j])
  {
    var o, c, p := OrderOf(l), ClauseOf(l), PageSize(limit);
    ListingsAligned(ByStartTime, Asc, l);
    var at: Option<Position> := None;
    all := [];
    while true
      invariant all + Walk(o, c, rows, at, p) == Walk(o, c, rows, None, p)
      decreases |Remaining(o, c, rows, at)|
    {
      var items, last := FetchPage(o, c, rows, at, p);
      ghost var before := all;
      all := all + items;
      if last.None? {
        break;
      }
      WalkStep(o, c, rows, at, p);
      at := Some(PositionOf(o.column, last.value));
      Associate(before, items, Walk(o, c, rows, at, p));
    }
    WalkExact(o, c, rows, p);
    forall i, j | 0 <= i < j < |all| ensures Listed(l, all[i], all[j]) {
      ClausesOrderFields(ByStartTime, Asc, l, all[i], all[j]);
    }
  }

  /**
   The rating-count sort is not among them.  Ascending, if the row popped from
   the first page has fewer minted tickets than any event has ratings, a client
   that has sent back `turns` cursors holds the first page again and yet another
   cursor, for every number of turns: that walk does not end.
   */
  method FollowRatings(rows: seq<Row>, limit: nat, turns: nat) returns (first: Page, page: Page)
    requires
      var s := Sort(BuildOrderBy(ByCountOfRatings, Asc), rows);
      && |s| > PageSize(limit)
      && forall i :: 0 <= i < |rows| ==> rows[i].ratings > s[PageSize(limit)].minted
    ensures first.items == Sort(BuildOrderBy(ByCountOfRatings, Asc), rows)[..PageSize(limit)]
    ensures page == first && page.next.Some?
  {
    ghost var popped := Sort(BuildOrderBy(ByCountOfRatings, Asc), rows)[PageSize(limit)];
    RatingsStartOver(rows, popped);
    var start := ListEvents(rows, ByCountOfRatings, Asc, None, limit);
    first := start.value;
    page := first;
    for i := 0 to turns
      invariant page == first && page.next == Some(EncodeCursor(popped))
    {
      var r := ListEvents(rows, ByCountOfRatings, Asc, page.next, limit);
      page := r.value;
    }
  }

  /** A cursor with fewer minted tickets than any event has ratings selects the whole listing. */
  lemma {:induction false} RatingsStartOver(rows: seq<Row>, popped: Row)
    requires forall i :: 0 <= i < |rows| ==> rows[i].ratings > popped.minted
    ensures
      var o, c := BuildOrderBy(ByCountOfRatings, Asc), BuildCursorClause(ByCountOfRatings, Asc);
      var start := StartOf(ByCountOfRatings, Some(EncodeCursor(popped)));
      start.Ok? && Remaining(o, c, rows, start.value) == Remaining(o, c, rows, None)
  {
    WhereAll(BuildCursorClause(ByCountOfRatings, Asc), rows, Position(popped.minted, popped.id));
  }

  lemma {:induction false} WhereAll(c: CursorClause, rows: seq<Row>, at: Position)
    requires forall i :: 0 <= i < |rows| ==> Selects(c, at, rows[i])
    ensures Where(c, rows, Some(at)) == rows
  {
    if rows == [] {
    } else {
      WhereAll(c, rows[1..], at);
      assert rows == [rows[0]] + rows[1..];
    }
  }

  lemma {:induction false} DivModBound(n: nat, m: nat)
    requires m > 0
    ensures n / m == 0 <==> n < m
    ensures 0 % m == 0 && 0 / m == 0
  {
    if n < m {
      DivModUnique(n, m, 0, n);
    }
    DivModUnique(0, m, 0, 0);
  }

  /** With the documented cursor the walk is the whole listing. */
  lemma {:induction false} DocumentedWalkComplete(o: OrderBy, c: CursorClause, rows: seq<Row>, at: Option<Position>,
                                                  p: nat)
    requires Aligned(o, c) && DistinctIds(rows) && p >= 1
    ensures DocumentedWalk(o, c, rows, at, p) == Remaining(o, c, rows, at)
    decreases |Remaining(o, c, rows, at)|
  {
    var s := Remaining(o, c, rows, at);
    if |s| <= p {
    } else {
      CursorRestarts(o, c, rows, at, p - 1);
      DocumentedWalkComplete(o, c, rows, Some(PositionOf(o.column, s[p - 1])), p);
      assert s == s[..p] + s[p..];
    }
  }
}

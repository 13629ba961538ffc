/**
  * The cursor-paginated reservation list: the keyset query of internal/store/reservation_crud.sql.go and its
  * caller in internal/booking/service_read.go.
  */
module Paging {
  import opened Basics
  import opened Calendar
  import opened StateMachine

  const DEFAULT_LIMIT := 50
  const MAX_LIMIT := 200

  /** A reservation row as the list reads it; ids are compared like UUIDs, and 0 is the zero UUID. */
  datatype Row = Row(id: nat, status: ReservationStatus, envelope: Stay, deleted: bool)

  datatype Filter = Filter(status: Option<ReservationStatus>, start: Option<Day>, end: Option<Day>)

  datatype ListParams = ListParams(limit: int, filter: Filter, cursorDate: Option<Day>, cursorId: Option<nat>)

  /** The order of the list: latest arrival first, then the greater id. */
  predicate Before(a: Row, b: Row) {
    a.envelope.arrival > b.envelope.arrival || (a.envelope.arrival == b.envelope.arrival && a.id > b.id)
  }

  predicate Matches(f: Filter, r: Row) {
    && !r.deleted
    && (f.status.Some? ==> r.status == f.status.value)
    && (f.start.Some? ==> r.envelope.arrival >= f.start.value)
    && (f.end.Some? ==> r.envelope.departure <= f.end.value)
  }

  /** The cursor condition; without a date the id is ignored. */
  predicate PastCursor(date: Option<Day>, id: nat, r: Row) {
    date.Some? ==> r.envelope.arrival < date.value || (r.envelope.arrival == date.value && r.id < id)
  }

  predicate UniqueIds(table: seq<Row>) {
    forall i, j :: 0 <= i < j < |table| ==> table[i].id != table[j].id
  }

  function Select(table: seq<Row>, f: Filter, date: Option<Day>, id: nat): seq<Row> {
    if table == [] then []
    else
      var rest := Select(table[1..], f, date, id);
      if Matches(f, table[0]) && PastCursor(date, id, table[0]) then [table[0]] + rest else rest
  }

  function Insert(r: Row, rows: seq<Row>): seq<Row> {
    if rows == [] || Before(r, rows[0]) then [r] + rows else [rows[0]] + Insert(r, rows[1..])
  }

  /** ORDER BY lower(stay_period_envelope) DESC, id DESC. */
  function Order(rows: seq<Row>): seq<Row> {
    if rows == [] then [] else Insert(rows[0], Order(rows[1..]))
  }

  function Limit(rows: seq<Row>, limit: nat): seq<Row> {
    if |rows| <= limit then rows else rows[..limit]
  }

  function Query(table: seq<Row>, f: Filter, date: Option<Day>, id: nat, limit: nat): seq<Row> {
    Limit(Order(Select(table, f, date, id)), limit)
  }

  function EffectiveLimit(limit: int): (r: nat)
    ensures r >= 1
  {
    if 1 <= limit <= MAX_LIMIT then limit else DEFAULT_LIMIT
  }

  // ---- ordering ----

  predicate Descending(rows: seq<Row>) {
    forall i, j :: 0 <= i < j < |rows| ==> Before(rows[i], rows[j])
  }

  lemma {:induction false} InsertDescends(r: Row, rows: seq<Row>)
    requires Descending(rows) && forall x :: x in rows ==> x.id != r.id
    ensures Descending(Insert(r, rows))
    ensures forall x :: x in Insert(r, rows) <==> x == r || x in rows
  {
    if rows != [] && !Before(r, rows[0]) {
      InsertDescends(r, rows[1..]);
      assert Before(rows[0], r);
      forall x | x in Insert(r, rows[1..]) ensures Before(rows[0], x) {
        if x != r {
          var k :| 0 <= k < |rows[1..]| && rows[1..][k] == x;
          assert rows[k + 1] == x;
        }
      }
    } else if rows != [] {
      assert forall k :: 0 < k < |rows| ==> Before(rows[0], rows[k]);
    }
  }

  lemma {:induction false} SelectMembers(table: seq<Row>, f: Filter, date: Option<Day>, id: nat)
    requires UniqueIds(table)
    ensures forall x :: x in Select(table, f, date, id) <==> x in table && Matches(f, x) && PastCursor(date, id, x)
    ensures UniqueIds(Select(table, f, date, id))
  {
    if table == [] {
    } else {
      SelectMembers(table[1..], f, date, id);
      forall x | x in table[1..] ensures x.id != table[0].id {
        var k :| 0 <= k < |table[1..]| && table[1..][k] == x;
        assert table[k + 1] == x;
      }
    }
  }

  lemma {:induction false} OrderDescends(rows: seq<Row>)
    requires UniqueIds(rows)
    ensures Descending(Order(rows))
    ensures forall x :: x in Order(rows) <==> x in rows
  {
    if rows == [] {
    } else {
      OrderDescends(rows[1..]);
      forall x | x in Order(rows[1..]) ensures x.id != rows[0].id {
        var k :| 0 <= k < |rows[1..]| && rows[1..][k] == x;
        assert rows[k + 1] == x;
      }
      InsertDescends(rows[0], Order(rows[1..]));
    }
  }

  /** A descending list is determined by its members. */
  lemma {:induction false} DescendingUnique(xs: seq<Row>, ys: seq<Row>)
    requires Descending(xs) && Descending(ys) && forall x :: x in xs <==> x in ys
    ensures xs == ys
  {
    assert xs != [] ==> xs[0] in ys;
    assert ys != [] ==> ys[0] in xs;
    if xs == [] {
    } else {
      HeadsEqual(xs, ys);
      TailMembers(xs);
      TailMembers(ys);
      DescendingUnique(xs[1..], ys[1..]);
      assert xs == [xs[0]] + xs[1..] && ys == [ys[0]] + ys[1..];
    }
  }

  lemma HeadsEqual(xs: seq<Row>, ys: seq<Row>)
    requires xs != [] && ys != [] && Descending(xs) && Descending(ys) && xs[0] in ys && ys[0] in xs
    ensures xs[0] == ys[0]
  {
  }

  lemma TailMembers(xs: seq<Row>)
    requires xs != [] && Descending(xs)
    ensures Descending(xs[1..]) && forall x :: x in xs[1..] <==> x in xs && x != xs[0]
  {
  }

  // ---- the query after a cursor ----

  /** The whole filtered table, in order. */
  function Listing(table: seq<Row>, f: Filter): seq<Row> {
    Order(Select(table, f, None, 0))
  }

  /** The listing lists exactly the matching rows, each once, latest arrival first. */
  lemma ListingIsComplete(table: seq<Row>, f: Filter)
    requires UniqueIds(table)
    ensures Descending(Listing(table, f))
    ensures forall x :: x in Listing(table, f) <==> x in table && Matches(f, x)
  {
    SelectMembers(table, f, None, 0);
    OrderDescends(Select(table, f, None, 0));
  }

  /** The cursor of the n-th listed row selects exactly the rows listed after it. */
  lemma CursorResumes(table: seq<Row>, f: Filter, n: nat)
    requires UniqueIds(table) && 0 < n <= |Listing(table, f)|
    ensures var last := Listing(table, f)[n - 1];
            Order(Select(table, f, Some(last.envelope.arrival), last.id)) == Listing(table, f)[n..]
  {
    var all := Listing(table, f);
    var last := all[n - 1];
    var date := Some(last.envelope.arrival);
    ListingIsComplete(table, f);
    SelectMembers(table, f, date, last.id);
    OrderDescends(Select(table, f, date, last.id));
    forall x ensures x in all[n..] <==> x in all && PastCursor(date, last.id, x) {
      if x in all {
        var k :| 0 <= k < |all| && all[k] == x;
        if k >= n {
          assert all[n..][k - n] == x && Before(last, x);
        } else {
          assert k < n - 1 ==> Before(x, last);
        }
        if x in all[n..] {
          var i :| 0 <= i < |all[n..]| && all[n..][i] == x;
          assert all[n + i] == x;
        }
      }
    }
    DescendingUnique(Order(Select(table, f, date, last.id)), all[n..]);
  }

  /** The cursor condition: later in the list than the date and id, and no condition without a date. */
  lemma CursorMeans(date: Option<Day>, id: nat, r: Row, last: Row)
    ensures PastCursor(None, id, r)
    ensures date == Some(last.envelope.arrival) && id == last.id ==>
              (PastCursor(date, id, r) <==>
               || r.envelope.arrival < last.envelope.arrival
               || (r.envelope.arrival == last.envelope.arrival && r.id < last.id))
  {
  }

  /** A page is a full or final stretch of the ordered matches past the cursor: nothing is skipped before its end. */
  lemma PageIsFirstRows(table: seq<Row>, f: Filter, date: Option<Day>, id: nat, limit: nat)
    requires UniqueIds(table)
    ensures var page := Query(table, f, date, id, limit);
            && Descending(page) && |page| <= limit
            && (forall x :: x in page ==> x in table && Matches(f, x) && PastCursor(date, id, x))
            && (forall x :: x in table && Matches(f, x) && PastCursor(date, id, x) && x !in page ==>
                              |page| == limit && forall y :: y in page ==> Before(y, x))
  {
    SelectMembers(table, f, date, id);
    OrderDescends(Select(table, f, date, id));
    var all, page := Order(Select(table, f, date, id)), Query(table, f, date, id, limit);
    forall x | x in all && x !in page ensures |page| == limit && forall y :: y in page ==> Before(y, x) {
      var k :| 0 <= k < |all| && all[k] == x;
      assert forall j :: 0 <= j < |page| ==> page[j] == all[j] && page[j] in page;
    }
  }

  /**
    * One request: the rows past the cursor that match, latest arrival first and as many as the limit allows, where a
    * limit outside 1 to 200 counts as 50 and an absent cursor id is the zero UUID.
    */
  method ListReservations(table: seq<Row>, params: ListParams) returns (page: seq<Row>)
    requires UniqueIds(table)
    ensures var n := if 1 <= params.limit <= 200 then params.limit else 50;
            var id := if params.cursorId.Some? then params.cursorId.value else 0;
            && Descending(page) && |page| <= n
            && (forall x :: x in page ==>
                              x in table && Matches(params.filter, x) && PastCursor(params.cursorDate, id, x))
            && (forall x | x in table && Matches(params.filter, x) && PastCursor(params.cursorDate, id, x) && x !in page
                  :: |page| == n && forall y :: y in page ==> Before(y, x))
            && page == Query(table, params.filter, params.cursorDate, id, n)
  {
    var limit := params.limit;
    if limit <= 0 || limit > MAX_LIMIT {
      limit := DEFAULT_LIMIT;
    }
    var cursorId := 0;
    if params.cursorId.Some? {
      cursorId := params.cursorId.value;
    }
    PageIsFirstRows(table, params.filter, params.cursorDate, cursorId, limit);
    page := Query(table, params.filter, params.cursorDate, cursorId, limit);
  }

  /** What a client asks for next: the page after `last`, or the first one. */
  method NextPage(table: seq<Row>, f: Filter, limit: int, last: Option<Row>) returns (page: seq<Row>)
    requires UniqueIds(table)
    ensures last.None? ==> page == Limit(Listing(table, f), EffectiveLimit(limit))
    ensures last.Some? ==>
              page == Query(table, f, Some(last.value.envelope.arrival), last.value.id, EffectiveLimit(limit))
  {
    if last.None? {
      page := ListReservations(table, ListParams(limit, f, None, None));
    } else {
      page := ListReservations(table, ListParams(limit, f, Some(last.value.envelope.arrival), Some(last.value.id)));
    }
  }

  /**
    * Following the cursor of each page's last row until a page comes back short, over a table that does not
    * change, lists exactly the matching rows, each once, in descending order, in one request per full page and
    * one more.
    */
  method FollowCursors(table: seq<Row>, f: Filter, limit: int) returns (rows: seq<Row>, requests: nat)
    requires UniqueIds(table)
    ensures forall i, j :: 0 <= i < j < |rows| ==>
                             || rows[i].envelope.arrival > rows[j].envelope.arrival
                             || (rows[i].envelope.arrival == rows[j].envelope.arrival && rows[i].id > rows[j].id)
    ensures forall x :: x in rows <==>
                        && x in table && !x.deleted && (f.status.Some? ==> x.status == f.status.value)
                        && (f.start.Some? ==> f.start.value <= x.envelope.arrival)
                        && (f.end.Some? ==> x.envelope.departure <= f.end.value)
    ensures var n := if 1 <= limit <= 200 then limit else 50; n * (requests - 1) <= |rows| < n * requests
  {
    ghost var all := Listing(table, f);
    ListingIsComplete(table, f);
    var n := EffectiveLimit(limit);
    var page := NextPage(table, f, limit, None);
    ghost var before := 0;
    rows, requests := page, 1;
    while |page| == n
      invariant rows <= all && |page| <= n && requests >= 1
      invariant before == n * (requests - 1) && |rows| == before + |page|
      invariant page != [] ==> rows != [] && rows[|rows| - 1] == page[|page| - 1]
      invariant |page| < n ==> rows == all
      decreases |all| - |rows|, |page|
    {
      var last := page[|page| - 1];
      assert last == all[|rows| - 1];
      CursorResumes(table, f, |rows|);
      page := NextPage(table, f, limit, Some(last));
      assert n * requests == n * (requests - 1) + n;
      before, rows, requests := before + n, rows + page, requests + 1;
    }
    assert n * requests == before + n;
  }
}

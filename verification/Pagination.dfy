/**
  Keyset pagination (src/utils/pagination.ts) and the cursor filters built on it: pages of a table
  that may change between any two of them.
 */
module Pagination {
  import opened Options

  const MAX_LIMIT := 100
  const DEFAULT_LIMIT := 24

  /** What Number(raw) can be. */
  datatype JsNumber = NaN | Infinite(negative: bool) | Finite(value: real)

  function Min(a: int, b: int): int { if a < b then a else b }

  function Max(a: int, b: int): int { if a > b then a else b }

  /** Always a page size that can hold a row and that the endpoint allows; a number in range is rounded down. */
  function ParseLimit(raw: JsNumber, def: int := DEFAULT_LIMIT, max: int := MAX_LIMIT): (r: int)
    requires 1 <= def <= max
    ensures 1 <= r <= max
    ensures raw.Finite? && 1.0 <= raw.value <= max as real ==> r as real <= raw.value < r as real + 1.0
    ensures raw.Finite? && raw.value > max as real ==> r == max
    ensures raw.Finite? && 0.0 < raw.value < 1.0 ==> r == 1
    ensures !raw.Finite? || raw.value <= 0.0 ==> r == def
  {
    if !raw.Finite? || raw.value <= 0.0 then def else Min(Max(raw.value.Floor, 1), max)
  }

  // ---- order and cursors --------------------------------------------------------------------

  /** A row's sort value (an instant, in milliseconds) and its id; also what a cursor holds. */
  datatype Row = Row(key: int, id: nat)

  datatype Direction = Asc | Desc

  /** orderBy: [{ key: dir }, { id: dir }] */
  predicate Before(d: Direction, a: Row, b: Row) {
    if a.key != b.key then (if d == Asc then a.key < b.key else a.key > b.key)
    else if d == Asc then a.id < b.id else a.id > b.id
  }

  /** The query's filter: beyond the cursor's sort value, or level with it and beyond its id. */
  predicate PastCursor(d: Direction, cursor: Option<Row>, r: Row) {
    cursor.Some? ==>
      || (if d == Asc then r.key > cursor.value.key else r.key < cursor.value.key)
      || (r.key == cursor.value.key && if d == Asc then r.id > cursor.value.id else r.id < cursor.value.id)
  }

  /** Ascending is by sort value and then by id; descending is its reverse. */
  lemma OrderIs(a: Row, b: Row)
    ensures Before(Asc, a, b) <==> a.key < b.key || (a.key == b.key && a.id < b.id)
    ensures Before(Desc, a, b) <==> Before(Asc, b, a)
  {}

  predicate Ordered(d: Direction, s: seq<Row>) {
    forall i, j :: 0 <= i < j < |s| ==> Before(d, s[i], s[j])
  }

  ghost predicate IsFirst(d: Direction, table: set<Row>, m: Row) {
    m in table && forall r :: r in table && r != m ==> Before(d, m, r)
  }

  lemma {:induction false} HasFirst(d: Direction, table: set<Row>)
    requires table != {}
    ensures exists m :: IsFirst(d, table, m)
    decreases |table|
  {
    var x :| x in table;
    if table == {x} {
      assert IsFirst(d, table, x);
    } else {
      var rest := table - {x};
      assert rest != {} by { assert table == rest + {x}; }
      HasFirst(d, rest);
      var m :| IsFirst(d, rest, m);
      assert IsFirst(d, table, if Before(d, x, m) then x else m);
    }
  }

  /** A query's rows in order. */
  ghost function Sorted(d: Direction, table: set<Row>): seq<Row>
    decreases |table|
  {
    if table == {} then [] else
      HasFirst(d, table);
      var m :| IsFirst(d, table, m);
      [m] + Sorted(d, table - {m})
  }

  lemma {:induction false} SortedIsOrder(d: Direction, table: set<Row>)
    ensures Ordered(d, Sorted(d, table)) && |Sorted(d, table)| == |table|
    ensures forall r :: r in Sorted(d, table) <==> r in table
    decreases |table|
  {
    if table != {} {
      HasFirst(d, table);
      var m := Sorted(d, table)[0];
      var rest := Sorted(d, table - {m});
      SortedIsOrder(d, table - {m});
      assert Sorted(d, table) == [m] + rest;
      assert forall j :: 0 <= j < |rest| ==> rest[j] in rest;
    }
  }

  /** There is only one way to put a set of rows in order. */
  lemma {:induction false} OrderIsUnique(d: Direction, s: seq<Row>, t: seq<Row>)
    requires Ordered(d, s) && Ordered(d, t)
    requires forall r :: r in s <==> r in t
    ensures s == t
  {
    assert s != [] ==> s[0] in t;
    assert t != [] ==> t[0] in s;
    if s != [] {
      var rest, rest' := s[1..], t[1..];
      assert s[0] == t[0];
      forall r ensures r in rest <==> r in rest' {
        if r in rest { assert r in t && Before(d, s[0], r); }
        if r in rest' { assert r in s && Before(d, t[0], r); }
      }
      OrderIsUnique(d, rest, rest');
      assert s == [s[0]] + rest && t == [t[0]] + rest';
    }
  }

  // ---- one page -----------------------------------------------------------------------------

  /** From rows fetched with `take: limit + 1`: the page, and the cursor of the next one. */
  function SlicePage(rows: seq<Row>, limit: nat): (seq<Row>, Option<Row>) {
    var hasMore := |rows| > limit;
    var pageRows := if hasMore then rows[..limit] else rows;
    (pageRows, if hasMore && pageRows != [] then Some(pageRows[|pageRows| - 1]) else None)
  }

  function Take(rows: seq<Row>, n: nat): seq<Row> {
    if |rows| > n then rows[..n] else rows
  }

  ghost function Rest(d: Direction, table: set<Row>, cursor: Option<Row>): set<Row> {
    set r | r in table && PastCursor(d, cursor, r)
  }

  ghost function Page(d: Direction, table: set<Row>, cursor: Option<Row>, limit: nat): (seq<Row>, Option<Row>) {
    SlicePage(Take(Sorted(d, Rest(d, table, cursor)), limit + 1), limit)
  }

  /** All rows past a cursor, in order. */
  ghost function Remaining(d: Direction, table: set<Row>, cursor: Option<Row>): seq<Row> {
    Sorted(d, Rest(d, table, cursor))
  }

  lemma RemainingOk(d: Direction, table: set<Row>, cursor: Option<Row>)
    ensures Ordered(d, Remaining(d, table, cursor)) && |Remaining(d, table, cursor)| == |Rest(d, table, cursor)|
    ensures forall r :: r in Remaining(d, table, cursor) <==> r in table && PastCursor(d, cursor, r)
  {
    hide Sorted, Ordered, PastCursor;
    SortedIsOrder(d, Rest(d, table, cursor));
  }

  /** The filter and the order agree. */
  lemma PastIsAfter(d: Direction, a: Row, r: Row)
    ensures PastCursor(d, Some(a), r) <==> Before(d, a, r)
  {}

  lemma PastIsTransitive(d: Direction, cursor: Option<Row>, a: Row, r: Row)
    requires PastCursor(d, cursor, a) && Before(d, a, r)
    ensures PastCursor(d, cursor, r)
  {}

  lemma BeforeIsAnOrder(d: Direction, a: Row, b: Row)
    ensures !(Before(d, a, b) && Before(d, b, a))
  {}

  /** A cursor taken from the k-th of the remaining rows leaves exactly the rows behind it. */
  lemma CursorCuts(d: Direction, table: set<Row>, cursor: Option<Row>, k: nat)
    requires 1 <= k <= |Remaining(d, table, cursor)|
    ensures var all := Remaining(d, table, cursor); all[k..] == Remaining(d, table, Some(all[k - 1]))
  {
    hide Remaining, PastCursor, Before;
    var all := Remaining(d, table, cursor);
    var at := all[k - 1];
    var behind := Remaining(d, table, Some(at));
    RemainingOk(d, table, cursor);
    RemainingOk(d, table, Some(at));
    forall r ensures r in all[k..] <==> r in behind {
      PastIsAfter(d, at, r);
      if r in all[k..] {
        var i :| k <= i < |all| && all[i] == r;
        assert Before(d, all[k - 1], all[i]) && all[i] in all;
      }
      if r in behind {
        assert at in all;
        PastIsTransitive(d, cursor, at, r);
        var i :| 0 <= i < |all| && all[i] == r;
        BeforeIsAnOrder(d, at, r);
        assert i >= k;
        assert all[k..][i - k] == r;
      }
    }
    OrderIsUnique(d, all[k..], behind);
  }

  lemma PageIs(d: Direction, table: set<Row>, cursor: Option<Row>, limit: nat)
    requires limit >= 1
    ensures var (rows, next) := Page(d, table, cursor, limit);
            var all := Remaining(d, table, cursor);
            if |all| <= limit then rows == all && next.None?
            else rows == all[..limit] && next == Some(all[limit - 1])
  {
    hide Sorted, Rest;
  }

  // ---- a walk over a changing table -----------------------------------------------------------

  /** What a client asks for: the table as it is at that moment, and the page size of that request. */
  datatype Request = Request(table: set<Row>, limit: nat)

  ghost predicate Sizes(requests: seq<Request>) {
    forall i :: 0 <= i < |requests| ==> requests[i].limit >= 1
  }

  /** All rows a client receives, following each page's cursor. */
  ghost function Walk(d: Direction, requests: seq<Request>, cursor: Option<Row>): seq<Row> {
    if requests == [] then [] else
      var (rows, next) := Page(d, requests[0].table, cursor, requests[0].limit);
      rows + if next.Some? then Walk(d, requests[1..], next) else []
  }

  /** Some page came without a cursor. */
  ghost predicate Finished(d: Direction, requests: seq<Request>, cursor: Option<Row>) {
    requests != [] &&
    var next := Page(d, requests[0].table, cursor, requests[0].limit).1;
    next.Some? ==> Finished(d, requests[1..], next)
  }

  lemma {:induction false} WalkOnlyPast(d: Direction, requests: seq<Request>, cursor: Option<Row>, r: Row)
    requires Sizes(requests) && r in Walk(d, requests, cursor)
    ensures PastCursor(d, cursor, r) && exists i :: 0 <= i < |requests| && r in requests[i].table
  {
    hide Page, PastCursor, Before, Remaining, Ordered;
    var (rows, next) := Page(d, requests[0].table, cursor, requests[0].limit);
    var all := Remaining(d, requests[0].table, cursor);
    PageIs(d, requests[0].table, cursor, requests[0].limit);
    RemainingOk(d, requests[0].table, cursor);
    if r in rows {
      assert r in all;
    } else {
      WalkOnlyPast(d, requests[1..], next, r);
      assert next.value in all;
      PastIsAfter(d, next.value, r);
      PastIsTransitive(d, cursor, next.value, r);
      var i :| 0 <= i < |requests[1..]| && r in requests[1..][i].table;
      assert r in requests[i + 1].table;
    }
  }

  lemma Joined(d: Direction, a: seq<Row>, b: seq<Row>)
    requires Ordered(d, a) && Ordered(d, b)
    requires forall i, j :: 0 <= i < |a| && 0 <= j < |b| ==> Before(d, a[i], b[j])
    ensures Ordered(d, a + b)
  {
    hide Before;
  }

  lemma BeforeIsTransitive(d: Direction, a: Row, b: Row, c: Row)
    requires (a == b || Before(d, a, b)) && Before(d, b, c)
    ensures Before(d, a, c)
  {}

  /** No row comes twice, and the rows come in order, whatever is inserted or deleted between pages. */
  lemma {:induction false} WalkIsOrdered(d: Direction, requests: seq<Request>, cursor: Option<Row>)
    requires Sizes(requests)
    ensures Ordered(d, Walk(d, requests, cursor))
  {
    hide Page, PastCursor, Before, Remaining;
    if requests != [] {
      var (rows, next) := Page(d, requests[0].table, cursor, requests[0].limit);
      PageIs(d, requests[0].table, cursor, requests[0].limit);
      RemainingOk(d, requests[0].table, cursor);
      if next.Some? {
        var tail := Walk(d, requests[1..], next);
        WalkIsOrdered(d, requests[1..], next);
        forall i, j | 0 <= i < |rows| && 0 <= j < |tail| ensures Before(d, rows[i], tail[j]) {
          WalkOnlyPast(d, requests[1..], next, tail[j]);
          PastIsAfter(d, next.value, tail[j]);
          BeforeIsTransitive(d, rows[i], next.value, tail[j]);
        }
        Joined(d, rows, tail);
      }
    }
  }

  /** A finished walk has returned every row that was there, with the same key, all along. */
  lemma {:induction false} WalkIsComplete(d: Direction, requests: seq<Request>, cursor: Option<Row>, r: Row)
    requires Sizes(requests) && Finished(d, requests, cursor) && PastCursor(d, cursor, r)
    requires forall i :: 0 <= i < |requests| ==> r in requests[i].table
    ensures r in Walk(d, requests, cursor)
  {
    hide Page, PastCursor, Before, Remaining, Ordered;
    var table, limit := requests[0].table, requests[0].limit;
    var (rows, next) := Page(d, table, cursor, limit);
    var all := Remaining(d, table, cursor);
    PageIs(d, table, cursor, limit);
    RemainingOk(d, table, cursor);
    assert r in all;
    if r !in rows {
      assert all == rows + all[limit..];
      CursorCuts(d, table, cursor, limit);
      RemainingOk(d, table, next);
      forall i | 0 <= i < |requests[1..]| ensures r in requests[1..][i].table { assert r in requests[i + 1].table; }
      WalkIsComplete(d, requests[1..], next, r);
    }
  }

  /** So a row that stays comes exactly once. */
  lemma StayingRowComesOnce(d: Direction, requests: seq<Request>, r: Row)
    requires Sizes(requests) && Finished(d, requests, None)
    requires forall i :: 0 <= i < |requests| ==> r in requests[i].table
    ensures var walk := Walk(d, requests, None);
            exists i :: 0 <= i < |walk| && walk[i] == r && forall j :: 0 <= j < |walk| && walk[j] == r ==> j == i
  {
    hide Page, Walk, Before, Finished;
    WalkIsComplete(d, requests, None, r);
    WalkIsOrdered(d, requests, None);
    BeforeIsAnOrder(d, r, r);
    var walk := Walk(d, requests, None);
    var i :| 0 <= i < |walk| && walk[i] == r;
    assert forall j :: 0 <= j < |walk| && walk[j] == r ==> j == i;
  }

  ghost predicate SameTable(requests: seq<Request>, table: set<Row>) {
    forall i :: 0 <= i < |requests| ==> requests[i].table == table
  }

  /** On a table that does not change, a finished walk is the sorted table. */
  lemma {:induction false} WalkOfFixedTable(d: Direction, requests: seq<Request>, table: set<Row>, cursor: Option<Row>)
    requires Sizes(requests) && SameTable(requests, table) && Finished(d, requests, cursor)
    ensures Walk(d, requests, cursor) == Remaining(d, table, cursor)
    ensures cursor.None? ==> Walk(d, requests, cursor) == Sorted(d, table)
  {
    hide Page, PastCursor, Sorted;
    var limit := requests[0].limit;
    var (rows, next) := Page(d, table, cursor, limit);
    PageIs(d, table, cursor, limit);
    if next.Some? {
      CursorCuts(d, table, cursor, limit);
      WalkOfFixedTable(d, requests[1..], table, next);
      var all := Remaining(d, table, cursor);
      assert all == rows + all[limit..];
    }
    if cursor.None? {
      assert Rest(d, table, cursor) == table by { NoCursorIsAll(d, table); }
    }
  }

  lemma NoCursorIsAll(d: Direction, table: set<Row>)
    ensures Rest(d, table, None) == table
  {}

  /** Progress: pages of one allowed size finish exactly when together they can hold the table. */
  lemma {:induction false} WalkFinishes(d: Direction, requests: seq<Request>, table: set<Row>, cursor: Option<Row>,
                                        limit: nat)
    requires SameTable(requests, table) && limit >= 1 && forall i :: 0 <= i < |requests| ==> requests[i].limit == limit
    ensures Finished(d, requests, cursor) <==> |requests| >= 1 && |requests| * limit >= |Remaining(d, table, cursor)|
  {
    hide Page, PastCursor, Remaining;
    if requests != [] {
      var next := Page(d, table, cursor, limit).1;
      var all := Remaining(d, table, cursor);
      PageIs(d, table, cursor, limit);
      assert |requests| * limit == |requests[1..]| * limit + limit;
      if next.Some? {
        CursorCuts(d, table, cursor, limit);
        WalkFinishes(d, requests[1..], table, next, limit);
        assert |all[limit..]| == |all| - limit;
      }
    }
  }
}

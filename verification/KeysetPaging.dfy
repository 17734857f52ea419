/**
 Walking a list that changes while it is read (build_slice and older_than_cursor in
 app/core/pagination.py, and the lists built on them).

 A row is its key: the time it is ordered by and its id, which never change. What the database
 answers for a page is what ORDER BY and LIMIT say of the rows that match at that moment.
 */
module KeysetPaging {
  import opened Wrappers

  datatype Key = Key(time: int, id: int)

  /** Newest first, as most lists; or nearest deadline first, as the report queue. */
  datatype Direction = NewestFirst | DeadlineFirst

  /** SQL's row-value comparison (a.time, a.id) < (b.time, b.id). */
  predicate Less(a: Key, b: Key) {
    a.time < b.time || (a.time == b.time && a.id < b.id)
  }

  /** `a` is listed before `b`. */
  predicate Before(dir: Direction, a: Key, b: Key) {
    if dir.NewestFirst? then Less(b, a) else Less(a, b)
  }

  /** The row comes after the cursor. Newest first this is older_than_cursor, whose plain
      `created_at <=` adds nothing to the row-value comparison. */
  predicate AfterCursor(dir: Direction, row: Key, cursor: Key): (after: bool)
    ensures after <==> Before(dir, cursor, row)
  {
    if dir.NewestFirst? then row.time <= cursor.time && Less(row, cursor) else Less(cursor, row)
  }

  // ---- one page ------------------------------------------------------------------------------

  ghost predicate IsFirst(dir: Direction, rows: set<Key>, k: Key) {
    k in rows && forall other :: other in rows && other != k ==> Before(dir, k, other)
  }

  lemma {:induction false} FirstExists(dir: Direction, rows: set<Key>)
    requires rows != {}
    ensures exists k :: IsFirst(dir, rows, k)
    decreases rows
  {
    var some :| some in rows;
    if rows == {some} {
      assert IsFirst(dir, rows, some);
    } else {
      FirstExists(dir, rows - {some});
      var k :| IsFirst(dir, rows - {some}, k);
      if Before(dir, some, k) {
        forall other | other in rows && other != some ensures Before(dir, some, other) {
          assert other == k || Before(dir, k, other);
        }
        assert IsFirst(dir, rows, some);
      } else {
        assert IsFirst(dir, rows, k);
      }
    }
  }

  /** ORDER BY: the rows in list order. */
  ghost function Ordered(dir: Direction, rows: set<Key>): seq<Key>
    decreases rows
  {
    if rows == {} then []
    else
      FirstExists(dir, rows);
      var k :| IsFirst(dir, rows, k);
      [k] + Ordered(dir, rows - {k})
  }

  ghost predicate InOrder(dir: Direction, rows: seq<Key>) {
    forall i, j :: 0 <= i < j < |rows| ==> Before(dir, rows[i], rows[j])
  }

  lemma {:induction false} OrderedIsOrdered(dir: Direction, rows: set<Key>)
    ensures InOrder(dir, Ordered(dir, rows))
    ensures forall k :: k in Ordered(dir, rows) <==> k in rows
    ensures |Ordered(dir, rows)| == |rows|
    decreases rows
  {
    if rows != {} {
      var k := Ordered(dir, rows)[0];
      var rest := Ordered(dir, rows)[1..];
      assert IsFirst(dir, rows, k) && rest == Ordered(dir, rows - {k});
      OrderedIsOrdered(dir, rows - {k});
      assert forall other :: other in rest ==> Before(dir, k, other);
      FirstThenRest(dir, k, rest);
      assert Ordered(dir, rows) == [k] + rest;
    }
  }

  lemma FirstThenRest(dir: Direction, k: Key, rest: seq<Key>)
    requires InOrder(dir, rest) && forall other :: other in rest ==> Before(dir, k, other)
    ensures InOrder(dir, [k] + rest)
  {
    var all := [k] + rest;
    forall i, j | 0 <= i < j < |all| ensures Before(dir, all[i], all[j]) {
      assert all[j] == rest[j - 1];
      if i > 0 {
        assert all[i] == rest[i - 1];
      }
    }
  }

  /** The matching rows after the cursor. */
  ghost function Candidates(dir: Direction, table: set<Key>, cursor: Option<Key>): set<Key> {
    set row | row in table && (cursor.Some? ==> AfterCursor(dir, row, cursor.value))
  }

  /** WHERE, ORDER BY, LIMIT limit + 1. */
  ghost function Fetch(dir: Direction, table: set<Key>, cursor: Option<Key>, limit: nat): seq<Key> {
    var all := Ordered(dir, Candidates(dir, table, cursor));
    if |all| <= limit + 1 then all else all[..limit + 1]
  }

  datatype Slice = Slice(rows: seq<Key>, next: Option<Key>)

  function BuildSlice(rows: seq<Key>, limit: nat): Slice {
    var kept := if |rows| > limit then rows[..limit] else rows;
    Slice(kept, if |rows| > limit && kept != [] then Some(kept[|kept| - 1]) else None)
  }

  ghost function Page(dir: Direction, table: set<Key>, cursor: Option<Key>, limit: nat): Slice {
    BuildSlice(Fetch(dir, table, cursor, limit), limit)
  }

  /** A page is the first rows after the cursor, in order; it has a next cursor exactly when it
      left some out, and then it is full and everything left out comes after that cursor. */
  lemma PageIsTheFirstRows(dir: Direction, table: set<Key>, cursor: Option<Key>, limit: nat)
    requires limit >= 1
    ensures var page := Page(dir, table, cursor, limit);
            && InOrder(dir, page.rows)
            && |page.rows| <= limit
            && (forall row :: row in page.rows ==> row in Candidates(dir, table, cursor))
            && (page.next == None <==> |Candidates(dir, table, cursor)| <= limit)
            && (page.next == None ==> forall row :: row in Candidates(dir, table, cursor) ==> row in page.rows)
            && (page.next.Some? ==>
                 && |page.rows| == limit && page.next == Some(page.rows[limit - 1])
                 && forall row :: row in Candidates(dir, table, cursor) ==>
                      row in page.rows || Before(dir, page.rows[limit - 1], row))
  {
    var candidates := Candidates(dir, table, cursor);
    var all := Ordered(dir, candidates);
    OrderedIsOrdered(dir, candidates);
    var page := Page(dir, table, cursor, limit);
    if |all| > limit {
      assert page.rows == all[..limit];
      forall row | row in candidates ensures row in page.rows || Before(dir, page.rows[limit - 1], row) {
        var n :| 0 <= n < |all| && all[n] == row;
        if n < limit {
          assert page.rows[n] == row;
        } else {
          assert Before(dir, all[limit - 1], all[n]);
        }
      }
    } else {
      assert page.rows == all;
    }
  }

  // ---- the walk ---------------------------------------------------------------------------------

  datatype Walked = Walked(rows: seq<Key>, pages: nat, finished: bool)

  /** Follow the cursors; tables[n] holds the rows that match when page n is fetched. */
  ghost function Walk(dir: Direction, tables: seq<set<Key>>, cursor: Option<Key>, limit: nat): Walked
    decreases tables
  {
    if tables == [] then Walked([], 0, false)
    else
      var page := Page(dir, tables[0], cursor, limit);
      if page.next == None then Walked(page.rows, 1, true)
      else
        var rest := Walk(dir, tables[1..], page.next, limit);
        Walked(page.rows + rest.rows, 1 + rest.pages, rest.finished)
  }

  lemma Chain(dir: Direction, a: Key, b: Key, c: Key)
    requires Before(dir, a, b) && Before(dir, b, c)
    ensures Before(dir, a, c)
  {}

  lemma JoinInOrder(dir: Direction, first: seq<Key>, rest: seq<Key>)
    requires InOrder(dir, first) && InOrder(dir, rest) && first != []
    requires forall row :: row in rest ==> Before(dir, first[|first| - 1], row)
    ensures InOrder(dir, first + rest)
  {
    var all := first + rest;
    forall i, j | 0 <= i < j < |all| ensures Before(dir, all[i], all[j]) {
      if i < |first| && j >= |first| {
        assert all[j] in rest;
        if i < |first| - 1 {
          Chain(dir, first[i], first[|first| - 1], all[j]);
        }
      }
    }
  }

  /** Whatever changes between pages, the rows come in list order, so none comes twice; and
      all come after the cursor the walk began with. */
  lemma {:induction false} WalkIsInOrder(dir: Direction, tables: seq<set<Key>>, cursor: Option<Key>, limit: nat)
    requires limit >= 1
    ensures InOrder(dir, Walk(dir, tables, cursor, limit).rows)
    ensures forall row :: row in Walk(dir, tables, cursor, limit).rows && cursor.Some? ==> Before(dir, cursor.value, row)
    decreases tables
  {
    if tables != [] {
      var page := Page(dir, tables[0], cursor, limit);
      PageIsTheFirstRows(dir, tables[0], cursor, limit);
      if page.next.Some? {
        var rest := Walk(dir, tables[1..], page.next, limit);
        WalkIsInOrder(dir, tables[1..], page.next, limit);
        JoinInOrder(dir, page.rows, rest.rows);
        forall row | row in rest.rows && cursor.Some? ensures Before(dir, cursor.value, row) {
          assert page.rows[limit - 1] in page.rows;
          Chain(dir, cursor.value, page.next.value, row);
        }
      }
    }
  }

  lemma OnePageMore(n: nat, limit: nat)
    ensures (n + 1) * limit == n * limit + limit
  {}

  lemma MoreRoom(i: nat, n: nat, limit: nat)
    requires i <= n
    ensures i * limit <= n * limit
  {}

  /** The page row number `i` comes on, when pages are full: i / limit. */
  function PageOf(i: nat, limit: nat): nat
    requires limit >= 1
  {
    if i < limit then 0 else 1 + PageOf(i - limit, limit)
  }

  lemma {:induction false} PageOfIsQuotient(i: nat, limit: nat)
    requires limit >= 1
    ensures PageOf(i, limit) * limit <= i < PageOf(i, limit) * limit + limit
  {
    if i >= limit {
      PageOfIsQuotient(i - limit, limit);
      OnePageMore(PageOf(i - limit, limit), limit);
    }
  }

  /** Nothing comes that was not there when its own page was read: every page but the last is
      full, so row number `i` is on page PageOf(i), and it was among the rows that matched then. */
  lemma {:induction false} WalkInventsNothing(dir: Direction, tables: seq<set<Key>>, cursor: Option<Key>, limit: nat, i: nat)
    requires limit >= 1 && i < |Walk(dir, tables, cursor, limit).rows|
    ensures PageOf(i, limit) < |tables| && Walk(dir, tables, cursor, limit).rows[i] in tables[PageOf(i, limit)]
    decreases tables
  {
    var page := Page(dir, tables[0], cursor, limit);
    PageIsTheFirstRows(dir, tables[0], cursor, limit);
    if i < |page.rows| {
      assert page.rows[i] in page.rows;
      assert page.rows[i] in Candidates(dir, tables[0], cursor);
    } else {
      WalkInventsNothing(dir, tables[1..], page.next, limit, i - limit);
    }
  }

  /** A row there for every page of the walk. */
  ghost predicate Stable(tables: seq<set<Key>>, row: Key) {
    forall n :: 0 <= n < |tables| ==> row in tables[n]
  }

  lemma {:induction false} WalkMissesNothingStable(dir: Direction, tables: seq<set<Key>>, cursor: Option<Key>, limit: nat, row: Key)
    requires limit >= 1 && Walk(dir, tables, cursor, limit).finished
    requires Stable(tables, row) && (cursor.Some? ==> Before(dir, cursor.value, row))
    ensures row in Walk(dir, tables, cursor, limit).rows
    decreases tables
  {
    var page := Page(dir, tables[0], cursor, limit);
    PageIsTheFirstRows(dir, tables[0], cursor, limit);
    assert row in Candidates(dir, tables[0], cursor);
    if page.next.Some? && row !in page.rows {
      WalkMissesNothingStable(dir, tables[1..], page.next, limit, row);
    }
  }

  /** The promise: a walk from the first page to a null cursor gives every row that matched
      throughout exactly once, and gives its rows in list order, whatever rows were added or
      dropped out between pages and however many share a time. */
  lemma WalkGivesEachStableRowOnce(dir: Direction, tables: seq<set<Key>>, limit: nat, row: Key)
    requires limit >= 1 && Walk(dir, tables, None, limit).finished && Stable(tables, row)
    ensures var rows := Walk(dir, tables, None, limit).rows;
            && InOrder(dir, rows)
            && exists n :: 0 <= n < |rows| && rows[n] == row && forall m :: 0 <= m < |rows| && rows[m] == row ==> m == n
  {
    var rows := Walk(dir, tables, None, limit).rows;
    WalkIsInOrder(dir, tables, None, limit);
    WalkMissesNothingStable(dir, tables, None, limit, row);
    var n :| 0 <= n < |rows| && rows[n] == row;
    forall m | 0 <= m < |rows| && rows[m] == row ensures m == n {
      assert m < n ==> Before(dir, rows[m], rows[n]);
      assert n < m ==> Before(dir, rows[n], rows[m]);
    }
  }

  /** Down a list of newest first the times never rise, and down one of nearest deadlines they never
      fall; rows of one time go by their ids, the same way. */
  ghost predicate GoesByTime(dir: Direction, rows: seq<Key>) {
    forall i, j :: 0 <= i < j < |rows| ==> if dir == NewestFirst then Sinks(rows[i], rows[j]) else Sinks(rows[j], rows[i])
  }

  predicate Sinks(a: Key, b: Key) {
    a.time >= b.time && (a.time == b.time ==> a.id > b.id)
  }

  lemma OrderIsByTime(dir: Direction, rows: seq<Key>)
    ensures InOrder(dir, rows) <==> GoesByTime(dir, rows)
  {}

  /** Every page and every walk goes the way its list is named, whatever changes between pages. */
  lemma ListsGoByTime(dir: Direction, tables: seq<set<Key>>, table: set<Key>, cursor: Option<Key>, limit: nat)
    requires limit >= 1
    ensures GoesByTime(dir, Page(dir, table, cursor, limit).rows)
    ensures GoesByTime(dir, Walk(dir, tables, cursor, limit).rows)
  {
    PageIsTheFirstRows(dir, table, cursor, limit);
    WalkIsInOrder(dir, tables, cursor, limit);
    OrderIsByTime(dir, Page(dir, table, cursor, limit).rows);
    OrderIsByTime(dir, Walk(dir, tables, cursor, limit).rows);
  }

  // ---- does the walk end? ------------------------------------------------------------------------

  lemma {:induction false} FullPages(dir: Direction, tables: seq<set<Key>>, cursor: Option<Key>, limit: nat)
    requires limit >= 1
    ensures !Walk(dir, tables, cursor, limit).finished ==> |Walk(dir, tables, cursor, limit).rows| == |tables| * limit
    decreases tables
  {
    if tables != [] {
      var page := Page(dir, tables[0], cursor, limit);
      PageIsTheFirstRows(dir, tables[0], cursor, limit);
      if page.next.Some? {
        FullPages(dir, tables[1..], page.next, limit);
        calc {
          limit + |tables[1..]| * limit;
          (1 + |tables[1..]|) * limit;
          |tables| * limit;
        }
      }
    }
  }

  lemma {:induction false} DistinctRowsFit(dir: Direction, rows: seq<Key>, all: set<Key>)
    requires InOrder(dir, rows) && forall row :: row in rows ==> row in all
    ensures |rows| <= |all|
    decreases rows
  {
    if rows != [] {
      var tail := rows[1..];
      forall row | row in tail ensures row in all - {rows[0]} {
        var n :| 0 <= n < |tail| && tail[n] == row;
        assert Before(dir, rows[0], rows[n + 1]);
      }
      DistinctRowsFit(dir, tail, all - {rows[0]});
    }
  }

  /** An unfinished walk leaves a row after its last cursor, on the table its last page read. */
  lemma {:induction false} UnfinishedLeavesOne(dir: Direction, tables: seq<set<Key>>, cursor: Option<Key>, limit: nat)
      returns (left: Key)
    requires limit >= 1 && tables != [] && !Walk(dir, tables, cursor, limit).finished
    ensures left in tables[|tables| - 1]
    ensures InOrder(dir, Walk(dir, tables, cursor, limit).rows + [left])
    ensures cursor.Some? ==> Before(dir, cursor.value, left)
    decreases tables
  {
    var page := Page(dir, tables[0], cursor, limit);
    PageIsTheFirstRows(dir, tables[0], cursor, limit);
    assert page.rows[limit - 1] in page.rows;
    if |tables| == 1 {
      left := OneLeftOut(dir, tables[0], cursor, limit);
      JoinInOrder(dir, page.rows, [left]);
      assert Walk(dir, tables, cursor, limit).rows == page.rows;
    } else {
      left := UnfinishedLeavesOne(dir, tables[1..], page.next, limit);
      WalkIsInOrder(dir, tables[1..], page.next, limit);
      JoinThree(dir, page.rows, Walk(dir, tables[1..], page.next, limit).rows, left);
    }
    if cursor.Some? {
      Chain(dir, cursor.value, page.next.value, left);
    }
  }

  lemma JoinThree(dir: Direction, first: seq<Key>, rest: seq<Key>, left: Key)
    requires InOrder(dir, first) && first != [] && InOrder(dir, rest + [left])
    requires Before(dir, first[|first| - 1], left)
    requires forall row :: row in rest ==> Before(dir, first[|first| - 1], row)
    ensures InOrder(dir, (first + rest) + [left])
  {
    JoinInOrder(dir, first, rest + [left]);
    assert first + (rest + [left]) == (first + rest) + [left];
  }

  lemma OneLeftOut(dir: Direction, table: set<Key>, cursor: Option<Key>, limit: nat) returns (left: Key)
    requires limit >= 1 && Page(dir, table, cursor, limit).next.Some?
    ensures left in Candidates(dir, table, cursor) && Before(dir, Page(dir, table, cursor, limit).next.value, left)
  {
    var candidates := Candidates(dir, table, cursor);
    OrderedIsOrdered(dir, candidates);
    left := Ordered(dir, candidates)[limit];
    assert left in Ordered(dir, candidates);
  }

  lemma WalkStaysIn(dir: Direction, tables: seq<set<Key>>, limit: nat, everMatched: set<Key>)
    requires limit >= 1 && forall n :: 0 <= n < |tables| ==> tables[n] <= everMatched
    ensures forall row :: row in Walk(dir, tables, None, limit).rows ==> row in everMatched
  {
    var rows := Walk(dir, tables, None, limit).rows;
    forall row | row in rows ensures row in everMatched {
      var i :| 0 <= i < |rows| && rows[i] == row;
      WalkInventsNothing(dir, tables, None, limit, i);
    }
  }

  /** A walk that is not over has filled every page with rows never given before, and leaves one
      more: so it ends within as many pages as the rows that ever matched fill. */
  lemma WalkEndsWithinTheRows(dir: Direction, tables: seq<set<Key>>, limit: nat, everMatched: set<Key>)
    requires limit >= 1 && forall n :: 0 <= n < |tables| ==> tables[n] <= everMatched
    requires tables != [] && |tables| * limit >= |everMatched|
    ensures Walk(dir, tables, None, limit).finished
  {
    var walked := Walk(dir, tables, None, limit);
    if !walked.finished {
      var left := UnfinishedLeavesOne(dir, tables, None, limit);
      FullPages(dir, tables, None, limit);
      WalkStaysIn(dir, tables, limit, everMatched);
      DistinctRowsFit(dir, walked.rows + [left], everMatched);
    }
  }

  // ---- exactly when it ends ----------------------------------------------------------------------

  /** Rows are only added, and only after every row that is there: what filing reports with later
      deadlines does to the queue. A table that stands still is the least of it. */
  ghost predicate OnlyLaterAdded(dir: Direction, tables: seq<set<Key>>) {
    && (forall n :: 0 < n < |tables| ==> tables[n - 1] <= tables[n])
    && (forall n, there, row :: 0 < n < |tables| && there in tables[n - 1] && row in tables[n] - tables[n - 1] ==>
         Before(dir, there, row))
  }

  /** The rows a walk has behind it. */
  ghost function Passed(dir: Direction, table: set<Key>, cursor: Option<Key>): set<Key> {
    table - Candidates(dir, table, cursor)
  }

  ghost function Members(rows: seq<Key>): set<Key> {
    set row | row in rows
  }

  lemma {:induction false} MembersCounted(dir: Direction, rows: seq<Key>)
    requires InOrder(dir, rows)
    ensures |Members(rows)| == |rows|
  {
    if rows != [] {
      MembersCounted(dir, rows[1..]);
      assert Members(rows) == Members(rows[1..]) + {rows[0]};
      forall n | 0 <= n < |rows| - 1 ensures rows[1..][n] != rows[0] {
        assert Before(dir, rows[0], rows[n + 1]);
      }
    }
  }

  /** What is behind the walk after giving `rows`: what was, and they. */
  lemma PassedGrows(dir: Direction, table: set<Key>, next: set<Key>, cursor: Option<Key>, rows: seq<Key>, last: Key)
    requires InOrder(dir, rows) && rows != [] && last == rows[|rows| - 1]
    requires forall row :: row in rows ==> row in Candidates(dir, table, cursor)
    requires forall row :: row in Candidates(dir, table, cursor) ==> row in rows || Before(dir, last, row)
    requires table <= next && forall row :: row in next - table ==> Before(dir, last, row)
    ensures Passed(dir, next, Some(last)) == Passed(dir, table, cursor) + Members(rows)
    ensures Passed(dir, table, cursor) !! Members(rows)
  {
    assert last in rows;
    var before, given, after := Passed(dir, table, cursor), Members(rows), Passed(dir, next, Some(last));
    forall row | row in given ensures row in after {
      var n :| 0 <= n < |rows| && rows[n] == row;
      assert n == |rows| - 1 || Before(dir, rows[n], rows[|rows| - 1]);
    }
    forall row | row in after ensures row in before || row in given {
      assert row in table;
    }
  }

  /** A full page puts its rows behind the walk, and no others, of those there and those added. */
  lemma PassedOneMorePage(dir: Direction, table: set<Key>, cursor: Option<Key>, limit: nat, next: set<Key>)
    requires limit >= 1 && Page(dir, table, cursor, limit).next.Some? && table <= next
    requires forall there, row :: there in table && row in next - table ==> Before(dir, there, row)
    ensures |Passed(dir, next, Page(dir, table, cursor, limit).next)| == |Passed(dir, table, cursor)| + limit
  {
    var page := Page(dir, table, cursor, limit);
    PageIsTheFirstRows(dir, table, cursor, limit);
    var last := page.rows[limit - 1];
    assert last in page.rows;
    PassedGrows(dir, table, next, cursor, page.rows, last);
    MembersCounted(dir, page.rows);
  }

  /** Some page's rows, after `given` before them, are all there are. */
  ghost predicate CatchesUp(tables: seq<set<Key>>, limit: nat, given: nat) {
    exists i :: 0 <= i < |tables| && |tables[i]| <= given + (i + 1) * limit
  }

  lemma {:induction false} WalkCatchesUp(dir: Direction, tables: seq<set<Key>>, cursor: Option<Key>, limit: nat, given: nat)
    requires limit >= 1 && OnlyLaterAdded(dir, tables)
    requires tables != [] ==> |Passed(dir, tables[0], cursor)| == given
    ensures Walk(dir, tables, cursor, limit).finished <==> CatchesUp(tables, limit, given)
    decreases tables
  {
    if tables != [] {
      var page := Page(dir, tables[0], cursor, limit);
      LastPageCatchesUp(dir, tables[0], cursor, limit);
      if page.next == None {
        assert |tables[0]| <= given + (0 + 1) * limit;
      } else {
        LaterRest(dir, tables);
        if |tables| > 1 {
          PassedOneMorePage(dir, tables[0], cursor, limit, tables[1]);
        }
        WalkCatchesUp(dir, tables[1..], page.next, limit, given + limit);
        ShiftPages(tables, limit, given);
      }
    }
  }

  lemma LastPageCatchesUp(dir: Direction, table: set<Key>, cursor: Option<Key>, limit: nat)
    requires limit >= 1
    ensures Page(dir, table, cursor, limit).next == None <==> |table| <= |Passed(dir, table, cursor)| + limit
  {
    PageIsTheFirstRows(dir, table, cursor, limit);
    var candidates := Candidates(dir, table, cursor);
    assert table == Passed(dir, table, cursor) + candidates && Passed(dir, table, cursor) !! candidates;
  }

  lemma LaterRest(dir: Direction, tables: seq<set<Key>>)
    requires tables != [] && OnlyLaterAdded(dir, tables)
    ensures OnlyLaterAdded(dir, tables[1..])
    ensures |tables| > 1 ==> tables[0] <= tables[1]
    ensures |tables| > 1 ==> forall there, row :: there in tables[0] && row in tables[1] - tables[0] ==> Before(dir, there, row)
  {
    assert |tables| > 1 ==> tables[1 - 1] <= tables[1];
    forall n, there, row | 0 < n < |tables[1..]| && there in tables[1..][n - 1] && row in tables[1..][n] - tables[1..][n - 1]
      ensures Before(dir, there, row)
    {
      assert there in tables[n] && row in tables[n + 1] - tables[n];
    }
  }

  lemma ShiftPages(tables: seq<set<Key>>, limit: nat, given: nat)
    requires tables != [] && |tables[0]| > given + limit
    ensures CatchesUp(tables, limit, given) <==> CatchesUp(tables[1..], limit, given + limit)
  {
    if i :| 0 <= i < |tables| && |tables[i]| <= given + (i + 1) * limit {
      assert i != 0 && tables[1..][i - 1] == tables[i];
      OnePageMore(i, limit);
    }
    if i :| 0 <= i < |tables[1..]| && |tables[1..][i]| <= given + limit + (i + 1) * limit {
      assert tables[1..][i] == tables[i + 1];
      OnePageMore(i + 1, limit);
    }
  }

  /** While rows are only added behind the others, in either direction, a walk ends exactly when
      some page's number times the limit catches up with the rows there are. */
  lemma WalkEndsExactlyWhenPagesCatchUp(dir: Direction, tables: seq<set<Key>>, limit: nat)
    requires limit >= 1 && OnlyLaterAdded(dir, tables)
    ensures Walk(dir, tables, None, limit).finished <==>
            exists i :: 0 <= i < |tables| && |tables[i]| <= (i + 1) * limit
  {
    if tables != [] {
      assert Passed(dir, tables[0], None) == {};
    }
    WalkCatchesUp(dir, tables, None, limit, 0);
    assert CatchesUp(tables, limit, 0) <==> exists i :: 0 <= i < |tables| && |tables[i]| <= (i + 1) * limit;
  }

  /** Rows with their own times and ids. */
  function Rows(n: nat): set<Key> {
    set j: nat | j < n :: Key(j, j)
  }

  lemma {:induction false} RowsCounted(n: nat)
    ensures |Rows(n)| == n
  {
    if n > 0 {
      RowsCounted(n - 1);
      assert Rows(n) == Rows(n - 1) + {Key(n - 1, n - 1)};
      assert Key(n - 1, n - 1) !in Rows(n - 1);
    }
  }

  /** `pages` pages end every walk over at most `most` rows. */
  ghost predicate PagesSuffice(dir: Direction, pages: nat, most: nat, limit: nat) {
    forall tables: seq<set<Key>>, everMatched: set<Key> ::
      |tables| == pages && |everMatched| <= most && (forall n :: 0 <= n < |tables| ==> tables[n] <= everMatched)
      ==> Walk(dir, tables, None, limit).finished
  }

  /** Whatever is added, dropped and put back: so many pages end every walk over so many rows
      exactly when there is a page and the pages hold the rows. */
  lemma PagesSufficeExactly(dir: Direction, pages: nat, most: nat, limit: nat)
    requires limit >= 1
    ensures PagesSuffice(dir, pages, most, limit) <==> pages >= 1 && pages * limit >= most
  {
    if pages >= 1 && pages * limit >= most {
      forall tables: seq<set<Key>>, everMatched: set<Key>
        | |tables| == pages && |everMatched| <= most && (forall n :: 0 <= n < |tables| ==> tables[n] <= everMatched)
        ensures Walk(dir, tables, None, limit).finished
      {
        WalkEndsWithinTheRows(dir, tables, limit, everMatched);
      }
    } else {
      var still := if pages == 0 then {} else Rows(pages * limit + 1);
      RowsCounted(pages * limit + 1);
      var tables := seq(pages, _ => still);
      StillWalkEnds(dir, still, pages, limit);
      assert |still| <= most;
    }
  }

  /** A list that stands still: exactly the pages its rows fill, and one for an empty list. */
  lemma StillWalkEnds(dir: Direction, still: set<Key>, pages: nat, limit: nat)
    requires limit >= 1
    ensures Walk(dir, seq(pages, _ => still), None, limit).finished <==> pages >= 1 && |still| <= pages * limit
  {
    var tables := seq(pages, _ => still);
    WalkEndsExactlyWhenPagesCatchUp(dir, tables, limit);
    if i :| 0 <= i < |tables| && |tables[i]| <= (i + 1) * limit {
      MoreRoom(i + 1, pages, limit);
    }
    if pages >= 1 && |still| <= pages * limit {
      assert |tables[pages - 1]| <= (pages - 1 + 1) * limit;
    }
  }

  /** Rows added during the walk are listed before every row that was there at its start: what
      a clock that moves on gives newest-first. */
  ghost predicate OnlyNewerAdded(dir: Direction, tables: seq<set<Key>>, start: set<Key>) {
    forall n, row, old_ :: 0 <= n < |tables| && row in tables[n] && row !in start && old_ in start ==> Before(dir, row, old_)
  }

  lemma {:induction false} WalkStaysInTheStart(dir: Direction, tables: seq<set<Key>>, cursor: Option<Key>, limit: nat, start: set<Key>)
    requires limit >= 1 && OnlyNewerAdded(dir, tables, start)
    requires match cursor
             case None => tables != [] ==> tables[0] == start
             case Some(key) => key in start
    ensures forall row :: row in Walk(dir, tables, cursor, limit).rows ==> row in start
    decreases tables
  {
    if tables != [] {
      var page := Page(dir, tables[0], cursor, limit);
      PageIsTheFirstRows(dir, tables[0], cursor, limit);
      forall row | row in page.rows ensures row in start {
        assert row in Candidates(dir, tables[0], cursor);
        assert cursor.Some? && row !in start ==> Before(dir, row, cursor.value);
        assert cursor.Some? ==> Before(dir, cursor.value, row);
      }
      if page.next.Some? {
        assert page.rows[limit - 1] in page.rows;
        forall n, row, old_ | 0 <= n < |tables[1..]| && row in tables[1..][n] && row !in start && old_ in start
          ensures Before(dir, row, old_)
        {
          assert row in tables[n + 1];
        }
        WalkStaysInTheStart(dir, tables[1..], page.next, limit, start);
      }
    }
  }

  lemma LeftIsOld(dir: Direction, tables: seq<set<Key>>, rows: seq<Key>, left: Key)
    requires tables != [] && OnlyNewerAdded(dir, tables, tables[0]) && left in tables[|tables| - 1]
    requires rows != [] && InOrder(dir, rows + [left]) && forall row :: row in rows ==> row in tables[0]
    ensures left in tables[0]
  {
    var last := |rows| - 1;
    assert rows[last] in rows && (rows + [left])[last] == rows[last] && (rows + [left])[last + 1] == left;
    assert Before(dir, rows[last], left);
  }

  /** So newest-first, with new rows always newer, the walk ends within the pages its starting
      rows fill, however fast rows are added. */
  lemma NewestFirstWalkEnds(tables: seq<set<Key>>, limit: nat)
    requires limit >= 1 && tables != [] && OnlyNewerAdded(NewestFirst, tables, tables[0])
    requires |tables| * limit >= |tables[0]|
    ensures Walk(NewestFirst, tables, None, limit).finished
  {
    var walked := Walk(NewestFirst, tables, None, limit);
    if !walked.finished {
      var left := UnfinishedLeavesOne(NewestFirst, tables, None, limit);
      FullPages(NewestFirst, tables, None, limit);
      WalkStaysInTheStart(NewestFirst, tables, None, limit, tables[0]);
      MoreRoom(1, |tables|, limit);
      LeftIsOld(NewestFirst, tables, walked.rows, left);
      DistinctRowsFit(NewestFirst, walked.rows + [left], tables[0]);
    }
  }

  lemma {:induction false} RowsFitPages(dir: Direction, tables: seq<set<Key>>, cursor: Option<Key>, limit: nat)
    requires limit >= 1
    ensures |Walk(dir, tables, cursor, limit).rows| <= |tables| * limit
    decreases tables
  {
    if tables != [] {
      var page := Page(dir, tables[0], cursor, limit);
      PageIsTheFirstRows(dir, tables[0], cursor, limit);
      RowsFitPages(dir, tables[1..], page.next, limit);
      OnePageMore(|tables[1..]|, limit);
    }
  }

  /** And when none of the starting rows drops out, no sooner: it ends exactly within those pages. */
  lemma NewestFirstWalkEndsExactly(tables: seq<set<Key>>, limit: nat)
    requires limit >= 1 && tables != [] && OnlyNewerAdded(NewestFirst, tables, tables[0])
    requires forall n :: 0 <= n < |tables| ==> tables[0] <= tables[n]
    ensures Walk(NewestFirst, tables, None, limit).finished <==> |tables| * limit >= |tables[0]|
  {
    if |tables| * limit >= |tables[0]| {
      NewestFirstWalkEnds(tables, limit);
    }
    var walked := Walk(NewestFirst, tables, None, limit);
    if walked.finished {
      forall row | row in tables[0] ensures row in Members(walked.rows) {
        WalkMissesNothingStable(NewestFirst, tables, None, limit, row);
      }
      WalkIsInOrder(NewestFirst, tables, None, limit);
      MembersCounted(NewestFirst, walked.rows);
      RowsFitPages(NewestFirst, tables, None, limit);
      SubsetCounted(tables[0], Members(walked.rows));
    }
  }

  lemma SubsetCounted(a: set<Key>, b: set<Key>)
    requires a <= b
    ensures |a| <= |b|
  {
    assert b == a + (b - a);
  }

  /** A queue that gains a page of later deadlines between any two pages. */
  function Growing(n: nat, limit: nat): seq<set<Key>> {
    seq(n, i requires 0 <= i < n => Rows((i + 1) * limit + 1))
  }

  /** Nearest deadline first the walk need not end: with a page of later deadlines filed between
      any two pages no page is ever the last, at any limit, for as long as you like. */
  lemma DeadlineFirstWalkMayNeverEnd(n: nat, limit: nat)
    requires limit >= 1
    ensures !Walk(DeadlineFirst, Growing(n, limit), None, limit).finished
  {
    var tables := Growing(n, limit);
    forall i | 0 <= i < n ensures |tables[i]| > (i + 1) * limit {
      RowsCounted((i + 1) * limit + 1);
    }
    forall i | 0 < i < n ensures tables[i - 1] <= tables[i] {
      MoreRoom(i, i + 1, limit);
    }
    WalkEndsExactlyWhenPagesCatchUp(DeadlineFirst, tables, limit);
  }
}

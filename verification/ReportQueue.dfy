/**
 One warning run on its own (_warn_batch and warn_admins in
 app/modules/admin/report_clock_service.py): batches of 50, at most 20 of them.

 The reports stand in the order of the query, nearest deadline first and then by id; neither
 ever changes.
 */
module ReportQueue {
  import opened Wrappers
  import opened ReportClocks

  const BATCH := 50
  const MAX_BATCHES := 20

  datatype Warned = Warned(id: nat, stage: Stage, due: int)

  datatype Notification = Notification(account: nat, report: nat, stage: Stage)

  /** ORDER BY due_at, id. */
  ghost predicate InQueueOrder(reports: seq<Report>) {
    forall i, j :: 0 <= i < j < |reports| ==>
      reports[i].due < reports[j].due || (reports[i].due == reports[j].due && reports[i].id < reports[j].id)
  }

  ghost predicate RowsOk(reports: seq<Report>) {
    forall i :: 0 <= i < |reports| ==> RowOk(reports[i])
  }

  /** Every report owed a warning at `now`, nearest deadline first. */
  function AllOwed(reports: seq<Report>, now: int): seq<Warned> {
    if reports == [] then []
    else
      (if Owed(reports[0], now) then [Warned(reports[0].id, StageAt(reports[0], now), reports[0].due)] else [])
      + AllOwed(reports[1..], now)
  }

  function First<T>(items: seq<T>, n: nat): seq<T> {
    if |items| <= n then items else items[..n]
  }

  /** The reports with the first `n` owed ones marked. */
  function MarkFirst(reports: seq<Report>, now: int, n: nat): seq<Report> {
    if reports == [] || n == 0 then reports
    else if Owed(reports[0], now) then [Mark(reports[0], now)] + MarkFirst(reports[1..], now, n - 1)
    else [reports[0]] + MarkFirst(reports[1..], now, n)
  }

  /** What a batch tells the admins, by report: every active admin once about each. */
  function Told(warned: seq<Warned>, admins: seq<nat>): seq<seq<Notification>> {
    seq(|warned|, i requires 0 <= i < |warned| => ToldAbout(warned[i], admins))
  }

  function ToldAbout(item: Warned, admins: seq<nat>): seq<Notification> {
    seq(|admins|, i requires 0 <= i < |admins| => Notification(admins[i], item.id, item.stage))
  }

  // ---- what a batch does to what is owed --------------------------------------------------------

  lemma {:induction false} MarkKeepsRows(reports: seq<Report>, now: int, n: nat)
    requires RowsOk(reports)
    ensures |MarkFirst(reports, now, n)| == |reports|
    ensures RowsOk(MarkFirst(reports, now, n))
    ensures forall i :: 0 <= i < |reports| ==>
              MarkFirst(reports, now, n)[i].due == reports[i].due && MarkFirst(reports, now, n)[i].id == reports[i].id
    decreases reports
  {
    if reports != [] && n > 0 {
      if Owed(reports[0], now) {
        MarkSettles(reports[0], now);
        MarkKeepsRows(reports[1..], now, n - 1);
      } else {
        MarkKeepsRows(reports[1..], now, n);
      }
    }
  }

  lemma AllOwedCons(r: Report, rest: seq<Report>, now: int)
    ensures AllOwed([r] + rest, now)
            == (if Owed(r, now) then [Warned(r.id, StageAt(r, now), r.due)] else []) + AllOwed(rest, now)
  {
    assert ([r] + rest)[1..] == rest;
  }

  lemma FirstOfCons<T>(item: T, items: seq<T>, n: nat)
    requires n > 0
    ensures |First([item] + items, n)| == 1 + |First(items, n - 1)|
    ensures ([item] + items)[|First([item] + items, n)|..] == items[|First(items, n - 1)|..]
  {}

  /** What is owed after marking is what was owed without the marked ones. */
  lemma {:induction false} MarkedAreSettled(reports: seq<Report>, now: int, n: nat)
    requires RowsOk(reports)
    ensures AllOwed(MarkFirst(reports, now, n), now)
            == AllOwed(reports, now)[|First(AllOwed(reports, now), n)|..]
    decreases reports
  {
    if reports == [] || n == 0 {
    } else {
      var r, rest := reports[0], reports[1..];
      assert reports == [r] + rest;
      AllOwedCons(r, rest, now);
      if Owed(r, now) {
        MarkSettles(r, now);
        MarkedAreSettled(rest, now, n - 1);
        AllOwedCons(Mark(r, now), MarkFirst(rest, now, n - 1), now);
        FirstOfCons(Warned(r.id, StageAt(r, now), r.due), AllOwed(rest, now), n);
      } else {
        MarkedAreSettled(rest, now, n);
        AllOwedCons(r, MarkFirst(rest, now, n), now);
      }
    }
  }

  /** A second batch takes up where the first left off. */
  lemma {:induction false} BatchesAdd(reports: seq<Report>, now: int, n: nat, m: nat)
    requires RowsOk(reports)
    ensures MarkFirst(MarkFirst(reports, now, n), now, m) == MarkFirst(reports, now, n + m)
    decreases reports
  {
    if reports == [] || n == 0 {
    } else if Owed(reports[0], now) {
      MarkSettles(reports[0], now);
      BatchesAdd(reports[1..], now, n - 1, m);
      assert MarkFirst(reports, now, n)[1..] == MarkFirst(reports[1..], now, n - 1);
    } else {
      BatchesAdd(reports[1..], now, n, m);
      assert MarkFirst(reports, now, n)[1..] == MarkFirst(reports[1..], now, n);
    }
  }

  /** With room for all, every owed report is marked and no other is touched. */
  lemma {:induction false} EnoughRoomMarksAll(reports: seq<Report>, now: int, n: nat)
    requires |AllOwed(reports, now)| <= n
    ensures |MarkFirst(reports, now, n)| == |reports|
    ensures forall i :: 0 <= i < |reports| ==>
              MarkFirst(reports, now, n)[i] == if Owed(reports[i], now) then Mark(reports[i], now) else reports[i]
    decreases reports
  {
    if reports == [] {
    } else if n == 0 {
      EnoughRoomMarksAll(reports[1..], now, n);
    } else if Owed(reports[0], now) {
      EnoughRoomMarksAll(reports[1..], now, n - 1);
    } else {
      EnoughRoomMarksAll(reports[1..], now, n);
    }
  }

  /** What is owed is in queue order, so the first of it are the nearest deadlines. */
  lemma {:induction false} OwedInOrder(reports: seq<Report>, now: int)
    requires InQueueOrder(reports)
    ensures forall i, j :: 0 <= i < j < |AllOwed(reports, now)| ==>
              AllOwed(reports, now)[i].due <= AllOwed(reports, now)[j].due
    ensures forall w :: w in AllOwed(reports, now) ==>
              exists k :: 0 <= k < |reports| && Owed(reports[k], now)
                     && w == Warned(reports[k].id, StageAt(reports[k], now), reports[k].due)
    decreases reports
  {
    if reports != [] {
      OwedInOrder(reports[1..], now);
      forall w | w in AllOwed(reports[1..], now)
        ensures reports[0].due <= w.due
        ensures exists k :: 0 <= k < |reports| && Owed(reports[k], now)
                       && w == Warned(reports[k].id, StageAt(reports[k], now), reports[k].due)
      {
        var k :| 0 <= k < |reports[1..]| && Owed(reports[1..][k], now)
                 && w == Warned(reports[1..][k].id, StageAt(reports[1..][k], now), reports[1..][k].due);
        assert reports[k + 1] == reports[1..][k];
      }
    }
  }

  /** A report is owed a warning: it is open and due within half an hour, and has had none; or it is
      late and has had none for that. */
  predicate Needs(r: Report, now: int) {
    && r.open && r.due - now <= 30 * 60 * 1_000_000
    && (r.soonAt.None? || (r.due < now && r.lateAt.None?))
  }

  function WarningOf(r: Report, now: int): Warned {
    Warned(r.id, if r.due < now then Overdue else DueSoon, r.due)
  }

  /** The row after its warning: the moment as the mark of its stage, and a report found late has had
      its due-soon moment too. */
  predicate WarnedNow(r: Report, now: int, after: Report) {
    && after == r.(soonAt := after.soonAt, lateAt := after.lateAt)
    && after.lateAt == (if r.due < now then Some(now) else r.lateAt)
    && after.soonAt == (if r.due < now && r.soonAt.Some? then r.soonAt else Some(now))
  }

  /** One row of a run with room for `room`: warned of, and then it needed it and is marked; or left
      as it was, and then it needed none or the run was full. */
  ghost predicate RowHandled(r: Report, now: int, after: Report, warned: seq<Warned>, room: nat) {
    if WarningOf(r, now) in warned then Needs(r, now) && WarnedNow(r, now, after)
    else after == r && (Needs(r, now) ==> |warned| == room)
  }

  /** A whole run, row by row: each warning is of one row, nearest deadline first. */
  ghost predicate RowsHandled(reports: seq<Report>, now: int, after: seq<Report>, warned: seq<Warned>, room: nat) {
    && |after| == |reports| && |warned| <= room
    && (forall i :: 0 <= i < |reports| ==> RowHandled(reports[i], now, after[i], warned, room))
    && (forall w :: w in warned ==> exists i :: 0 <= i < |reports| && w == WarningOf(reports[i], now))
    && (forall i, j :: 0 <= i < j < |warned| ==> Sooner(warned[i], warned[j]))
  }

  predicate Sooner(a: Warned, b: Warned) {
    a.due < b.due || (a.due == b.due && a.id < b.id)
  }

  lemma {:induction false} MarkFirstHandles(reports: seq<Report>, now: int, n: nat)
    requires InQueueOrder(reports)
    ensures RowsHandled(reports, now, MarkFirst(reports, now, n), First(AllOwed(reports, now), n), n)
    decreases reports
  {
    if reports == [] || n == 0 {
      assert First(AllOwed(reports, now), n) == [];
    } else {
      var r, rest := reports[0], reports[1..];
      var m := if Owed(r, now) then n - 1 else n;
      assert reports == [r] + rest;
      MarkFirstHandles(rest, now, m);
      HandleOneMore(r, rest, now, n, MarkFirst(rest, now, m), First(AllOwed(rest, now), m), m);
    }
  }

  lemma HandleOneMore(r: Report, rest: seq<Report>, now: int, n: nat, after: seq<Report>, warned: seq<Warned>, m: nat)
    requires InQueueOrder([r] + rest) && n > 0 && m == (if Owed(r, now) then n - 1 else n)
    requires after == MarkFirst(rest, now, m) && warned == First(AllOwed(rest, now), m)
    requires RowsHandled(rest, now, after, warned, m)
    ensures RowsHandled([r] + rest, now, MarkFirst([r] + rest, now, n), First(AllOwed([r] + rest, now), n), n)
  {
    AllLater(r, rest, now, warned);
    FirstOneMore(r, rest, now, n);
    if Owed(r, now) {
      RowMoreWarned(r, Mark(r, now), rest, now, after, warned, m);
    } else {
      RowMoreLeft(r, rest, now, after, warned, m);
    }
  }

  lemma FirstOneMore(r: Report, rest: seq<Report>, now: int, n: nat)
    requires n > 0
    ensures Owed(r, now) ==>
              && MarkFirst([r] + rest, now, n) == [Mark(r, now)] + MarkFirst(rest, now, n - 1)
              && First(AllOwed([r] + rest, now), n) == [WarningOf(r, now)] + First(AllOwed(rest, now), n - 1)
    ensures !Owed(r, now) ==>
              && MarkFirst([r] + rest, now, n) == [r] + MarkFirst(rest, now, n)
              && First(AllOwed([r] + rest, now), n) == First(AllOwed(rest, now), n)
  {
    assert ([r] + rest)[1..] == rest;
    AllOwedCons(r, rest, now);
    if Owed(r, now) {
      TakeOne([r] + rest, now, n);
    }
  }

  lemma AllLater(r: Report, rest: seq<Report>, now: int, warned: seq<Warned>)
    requires InQueueOrder([r] + rest)
    requires forall w :: w in warned ==> exists i :: 0 <= i < |rest| && w == WarningOf(rest[i], now)
    ensures forall w :: w in warned ==> Sooner(WarningOf(r, now), w)
  {
    forall w | w in warned ensures Sooner(WarningOf(r, now), w) {
      var i :| 0 <= i < |rest| && w == WarningOf(rest[i], now);
      assert ([r] + rest)[0] == r && ([r] + rest)[i + 1] == rest[i];
    }
  }

  lemma RowMoreWarned(r: Report, marked: Report, rest: seq<Report>, now: int, after: seq<Report>, warned: seq<Warned>, m: nat)
    requires InQueueOrder([r] + rest) && RowsHandled(rest, now, after, warned, m)
    requires Needs(r, now) && WarnedNow(r, now, marked)
    requires forall w :: w in warned ==> Sooner(WarningOf(r, now), w)
    ensures RowsHandled([r] + rest, now, [marked] + after, [WarningOf(r, now)] + warned, m + 1)
  {
    var reports, all := [r] + rest, [WarningOf(r, now)] + warned;
    forall i | 0 <= i < |reports| ensures RowHandled(reports[i], now, ([marked] + after)[i], all, m + 1) {
      if i > 0 {
        assert reports[0] == r && reports[i] == rest[i - 1];
        assert RowHandled(rest[i - 1], now, after[i - 1], warned, m);
      }
    }
    forall w | w in all ensures exists i :: 0 <= i < |reports| && w == WarningOf(reports[i], now) {
      if w in warned {
        var i :| 0 <= i < |rest| && w == WarningOf(rest[i], now);
        assert reports[i + 1] == rest[i];
      } else {
        assert reports[0] == r;
      }
    }
  }

  lemma RowMoreLeft(r: Report, rest: seq<Report>, now: int, after: seq<Report>, warned: seq<Warned>, m: nat)
    requires RowsHandled(rest, now, after, warned, m) && !Needs(r, now)
    requires forall w :: w in warned ==> Sooner(WarningOf(r, now), w)
    ensures RowsHandled([r] + rest, now, [r] + after, warned, m)
  {
    var reports := [r] + rest;
    forall i | 0 <= i < |reports| ensures RowHandled(reports[i], now, ([r] + after)[i], warned, m) {
      if i > 0 {
        assert RowHandled(rest[i - 1], now, after[i - 1], warned, m);
      }
    }
    forall w | w in warned ensures exists i :: 0 <= i < |reports| && w == WarningOf(reports[i], now) {
      var i :| 0 <= i < |rest| && w == WarningOf(rest[i], now);
      assert reports[i + 1] == rest[i];
    }
  }

  /** What was recorded for each warning: one notice to each admin, of that report and stage. */
  ghost predicate EachAdminTold(recorded: seq<seq<Notification>>, warned: seq<Warned>, admins: seq<nat>) {
    && |recorded| == |warned|
    && forall k :: 0 <= k < |warned| ==>
         && |recorded[k]| == |admins|
         && forall a :: 0 <= a < |admins| ==> recorded[k][a] == Notification(admins[a], warned[k].id, warned[k].stage)
  }

  function Stages(warned: seq<Warned>): seq<Stage> {
    seq(|warned|, i requires 0 <= i < |warned| => warned[i].stage)
  }

  /** How many were warned of at this stage. */
  function Count(warned: seq<Warned>, stage: Stage): nat {
    multiset(Stages(warned))[stage]
  }

  lemma CountConcat(a: seq<Warned>, b: seq<Warned>, stage: Stage)
    ensures Count(a + b, stage) == Count(a, stage) + Count(b, stage)
  {
    assert Stages(a + b) == Stages(a) + Stages(b);
  }

  lemma CountOneMore(warned: seq<Warned>, item: Warned, stage: Stage)
    ensures Count(warned + [item], stage) == Count(warned, stage) + if item.stage == stage then 1 else 0
  {
    CountConcat(warned, [item], stage);
    assert Stages([item]) == [item.stage];
  }

  lemma {:induction false} StagesAreAll(warned: seq<Warned>)
    ensures Count(warned, DueSoon) + Count(warned, Overdue) == |warned|
    decreases warned
  {
    if warned != [] {
      var front, last := warned[..|warned| - 1], warned[|warned| - 1];
      StagesAreAll(front);
      assert warned == front + [last];
      CountOneMore(front, last, DueSoon);
      CountOneMore(front, last, Overdue);
    }
  }

  // ---- the job as it is written -------------------------------------------------------------------

  class WarningJob {
    var reports: seq<Report>
    var admins: seq<nat>            // the active admins, each once
    var sent: seq<seq<Notification>> // what was recorded, by report
    var logged: seq<Warned>         // the error-level lines

    ghost predicate Valid()
      reads this
    {
      InQueueOrder(reports) && RowsOk(reports)
    }

    constructor (reports: seq<Report>, admins: seq<nat>)
      requires InQueueOrder(reports) && RowsOk(reports)
      ensures Valid() && this.reports == reports && this.admins == admins && sent == [] && logged == []
    {
      this.reports := reports;
      this.admins := admins;
      sent := [];
      logged := [];
    }

    /** One warning recorded for every active admin. */
    method Tell(item: Warned)
      modifies `sent
      ensures sent == old(sent) + [ToldAbout(item, admins)]
    {
      var recorded := [];
      for a := 0 to |admins|
        invariant recorded == ToldAbout(item, admins)[..a]
      {
        recorded := recorded + [Notification(admins[a], item.id, item.stage)];
      }
      assert recorded == ToldAbout(item, admins);
      sent := sent + [recorded];
    }

    /** _warn_batch: the first rows the query gives, marked one by one, each admin told of
        each, one commit. */
    method WarnBatch(now: int) returns (warned: seq<Warned>)
      modifies `reports, `sent
      ensures warned == First(AllOwed(old(reports), now), BATCH)
      ensures reports == MarkFirst(old(reports), now, BATCH)
      ensures sent == old(sent) + Told(warned, admins)
    {
      var rows := reports;
      var marked;
      warned, marked := MarkBatch(rows, now);
      reports := marked;
    }

    method MarkBatch(rows: seq<Report>, now: int) returns (warned: seq<Warned>, marked: seq<Report>)
      modifies `sent
      ensures warned == First(AllOwed(rows, now), BATCH)
      ensures marked == MarkFirst(rows, now, BATCH)
      ensures sent == old(sent) + Told(warned, admins)
    {
      warned, marked := [], [];
      BatchBegins(rows, now);
      for i := 0 to |rows|
        invariant BatchSoFar(rows, now, i, warned, marked)
        invariant sent == old(sent) + Told(warned, admins)
      {
        BatchSoFarStep(rows, now, i, warned, marked);
        if |warned| < BATCH && Owed(rows[i], now) {
          var item := Warned(rows[i].id, StageAt(rows[i], now), rows[i].due);
          marked := marked + [Mark(rows[i], now)];
          Tell(item);
          ToldOneMore(warned, item, admins);
          warned := warned + [item];
        } else {
          marked := marked + [rows[i]];
        }
      }
      BatchIsDone(rows, now, warned, marked);
    }

    /** The log lines after a batch's commit, and the two counts. */
    method LogWarned(warned: seq<Warned>) returns (dueSoon: nat, overdue: nat)
      modifies `logged
      ensures logged == old(logged) + warned
      ensures dueSoon == Count(warned, DueSoon) && overdue == Count(warned, Overdue)
    {
      dueSoon, overdue := 0, 0;
      var n := 0;
      while n < |warned|
        invariant 0 <= n <= |warned|
        invariant logged == old(logged) + warned[..n]
        invariant dueSoon == Count(warned[..n], DueSoon) && overdue == Count(warned[..n], Overdue)
      {
        assert warned[..n + 1] == warned[..n] + [warned[n]];
        CountOneMore(warned[..n], warned[n], DueSoon);
        CountOneMore(warned[..n], warned[n], Overdue);
        logged := logged + [warned[n]];
        if warned[n].stage == Overdue {
          overdue := overdue + 1;
        } else {
          dueSoon := dueSoon + 1;
        }
        n := n + 1;
      }
      assert warned[..n] == warned;
    }

    /** warn_admins: batch after batch until one comes back short, at most 20. */
    method WarnAdmins(now: int) returns (dueSoon: nat, overdue: nat)
      requires Valid()
      modifies `reports, `sent, `logged
      ensures Valid()
      ensures RanFrom(old(reports), now, First(AllOwed(old(reports), now), BATCH * MAX_BATCHES), reports)
      ensures Recorded(old(logged), logged, old(sent), sent, admins,
                       First(AllOwed(old(reports), now), BATCH * MAX_BATCHES), dueSoon, overdue)
      ensures old(logged) <= logged && old(sent) <= sent
      ensures RowsHandled(old(reports), now, reports, logged[|old(logged)|..], 1000)
      ensures EachAdminTold(sent[|old(sent)|..], logged[|old(logged)|..], admins)
      ensures dueSoon + overdue == |logged| - |old(logged)|
      ensures overdue == Count(logged[|old(logged)|..], Overdue)
    {
      ghost var n, done;
      dueSoon, overdue, n, done := Batches(now);
      RunIsDone(old(reports), now, n, done, reports);
      MarkKeepsOrder(old(reports), now, BATCH * MAX_BATCHES);
      MarkFirstHandles(old(reports), now, 1000);
      assert logged[|old(logged)|..] == done && sent[|old(sent)|..] == Told(done, admins);
    }

    /** The loop. */
    method Batches(now: int) returns (dueSoon: nat, overdue: nat, ghost n: nat, ghost done: seq<Warned>)
      requires RowsOk(reports)
      modifies `reports, `sent, `logged
      ensures RunSoFar(old(reports), now, n, done, reports)
      ensures Recorded(old(logged), logged, old(sent), sent, admins, done, dueSoon, overdue)
      ensures n <= BATCH * MAX_BATCHES && (n == BATCH * MAX_BATCHES || |AllOwed(old(reports), now)| <= n)
    {
      var batches := 0;
      dueSoon, overdue := 0, 0;
      n, done := 0, [];
      RunBegins(reports, now);
      while batches < MAX_BATCHES
        invariant 0 <= batches <= MAX_BATCHES && n == BATCH * batches
        invariant RunSoFar(old(reports), now, n, done, reports)
        invariant Recorded(old(logged), logged, old(sent), sent, admins, done, dueSoon, overdue)
      {
        var full;
        full, dueSoon, overdue, done := OneBatch(now, old(reports), n, done, old(logged), old(sent), dueSoon, overdue);
        batches, n := batches + 1, n + BATCH;
        if !full {
          break;
        }
      }
    }

    /** One turn of the loop: a batch, its log lines, the counters carried on. */
    method OneBatch(now: int, ghost start: seq<Report>, ghost n: nat, ghost done: seq<Warned>,
                    ghost logged0: seq<Warned>, ghost sent0: seq<seq<Notification>>, dueSoon: nat, overdue: nat)
      returns (full: bool, soon: nat, late: nat, ghost done': seq<Warned>)
      requires RunSoFar(start, now, n, done, reports)
      requires Recorded(logged0, logged, sent0, sent, admins, done, dueSoon, overdue)
      modifies `reports, `sent, `logged
      ensures RunSoFar(start, now, n + BATCH, done', reports)
      ensures Recorded(logged0, logged, sent0, sent, admins, done', soon, late)
      ensures !full ==> |AllOwed(start, now)| < n + BATCH
    {
      RunSoFarStep(start, now, n, done, reports);
      ghost var logged1, sent1 := logged, sent;
      var warned := WarnBatch(now);
      soon, late := LogWarned(warned);
      RecordedMore(logged0, logged1, sent0, sent1, admins, done, dueSoon, overdue, warned);
      soon, late := dueSoon + soon, overdue + late;
      done' := done + warned;
      full := |warned| == BATCH;
    }
  }

  /** What the run has written so far, and its counters. */
  ghost predicate Recorded(logged0: seq<Warned>, logged: seq<Warned>, sent0: seq<seq<Notification>>, sent: seq<seq<Notification>>,
                           admins: seq<nat>, done: seq<Warned>, dueSoon: nat, overdue: nat) {
    && logged == logged0 + done
    && sent == sent0 + Told(done, admins)
    && dueSoon == Count(done, DueSoon) && overdue == Count(done, Overdue)
  }

  /** What a whole run leaves: the warned reports marked, owed no more; the counters add up. */
  ghost predicate RanFrom(start: seq<Report>, now: int, warned: seq<Warned>, reports: seq<Report>) {
    && reports == MarkFirst(start, now, BATCH * MAX_BATCHES)
    && |warned| <= |AllOwed(start, now)|
    && AllOwed(reports, now) == AllOwed(start, now)[|warned|..]
    && Count(warned, DueSoon) + Count(warned, Overdue) == |warned|
  }

  lemma RecordedMore(logged0: seq<Warned>, logged: seq<Warned>, sent0: seq<seq<Notification>>, sent: seq<seq<Notification>>,
                     admins: seq<nat>, done: seq<Warned>, dueSoon: nat, overdue: nat, warned: seq<Warned>)
    requires Recorded(logged0, logged, sent0, sent, admins, done, dueSoon, overdue)
    ensures Recorded(logged0, logged + warned, sent0, sent + Told(warned, admins), admins, done + warned,
                     dueSoon + Count(warned, DueSoon), overdue + Count(warned, Overdue))
  {
    CountConcat(done, warned, DueSoon);
    CountConcat(done, warned, Overdue);
    assert Told(done + warned, admins) == Told(done, admins) + Told(warned, admins);
  }

  lemma ToldOneMore(warned: seq<Warned>, item: Warned, admins: seq<nat>)
    ensures Told(warned + [item], admins) == Told(warned, admins) + [ToldAbout(item, admins)]
  {}

  /** The scan of one batch: what is left to find is in the rows still to come. */
  ghost predicate BatchSoFar(reports: seq<Report>, now: int, i: nat, warned: seq<Warned>, marked: seq<Report>) {
    && i <= |reports| && |warned| <= BATCH
    && First(AllOwed(reports, now), BATCH) == warned + First(AllOwed(reports[i..], now), BATCH - |warned|)
    && MarkFirst(reports, now, BATCH) == marked + MarkFirst(reports[i..], now, BATCH - |warned|)
  }

  lemma BatchBegins(reports: seq<Report>, now: int)
    ensures BatchSoFar(reports, now, 0, [], [])
  {
    assert reports[0..] == reports;
  }

  lemma MarkKeepsOrder(reports: seq<Report>, now: int, n: nat)
    requires InQueueOrder(reports) && RowsOk(reports)
    ensures InQueueOrder(MarkFirst(reports, now, n)) && RowsOk(MarkFirst(reports, now, n))
  {
    MarkKeepsRows(reports, now, n);
  }

  lemma BatchSoFarStep(reports: seq<Report>, now: int, i: nat, warned: seq<Warned>, marked: seq<Report>)
    requires i < |reports| && BatchSoFar(reports, now, i, warned, marked)
    ensures var report := reports[i];
            if |warned| < BATCH && Owed(report, now) then
              BatchSoFar(reports, now, i + 1, warned + [Warned(report.id, StageAt(report, now), report.due)],
                         marked + [Mark(report, now)])
            else BatchSoFar(reports, now, i + 1, warned, marked + [report])
  {
    assert reports[i..] == [reports[i]] + reports[i + 1..];
    ScanOne(reports[i], reports[i + 1..], now, BATCH - |warned|, warned, marked);
  }

  lemma ScanOne(r: Report, rest: seq<Report>, now: int, n: nat, warned: seq<Warned>, marked: seq<Report>)
    ensures n > 0 && Owed(r, now) ==>
              && warned + First(AllOwed([r] + rest, now), n)
                 == (warned + [Warned(r.id, StageAt(r, now), r.due)]) + First(AllOwed(rest, now), n - 1)
              && marked + MarkFirst([r] + rest, now, n) == (marked + [Mark(r, now)]) + MarkFirst(rest, now, n - 1)
    ensures !(n > 0 && Owed(r, now)) ==>
              && First(AllOwed([r] + rest, now), n) == First(AllOwed(rest, now), n)
              && marked + MarkFirst([r] + rest, now, n) == (marked + [r]) + MarkFirst(rest, now, n)
  {
    assert ([r] + rest)[1..] == rest;
    if n > 0 && Owed(r, now) {
      TakeOne([r] + rest, now, n);
      Regroup(warned, Warned(r.id, StageAt(r, now), r.due), First(AllOwed(rest, now), n - 1));
      Regroup(marked, Mark(r, now), MarkFirst(rest, now, n - 1));
    } else {
      Regroup(marked, r, MarkFirst(rest, now, n));
    }
  }

  lemma Regroup<T>(a: seq<T>, x: T, b: seq<T>)
    ensures a + ([x] + b) == (a + [x]) + b
  {}

  lemma BatchIsDone(reports: seq<Report>, now: int, warned: seq<Warned>, marked: seq<Report>)
    requires BatchSoFar(reports, now, |reports|, warned, marked)
    ensures warned == First(AllOwed(reports, now), BATCH) && marked == MarkFirst(reports, now, BATCH)
  {
    assert reports[|reports|..] == [];
  }

  /** A run after `n` rows' worth of batches. */
  ghost predicate RunSoFar(start: seq<Report>, now: int, n: nat, done: seq<Warned>, reports: seq<Report>) {
    && RowsOk(start)
    && done == First(AllOwed(start, now), n)
    && reports == MarkFirst(start, now, n)
  }

  lemma RunBegins(start: seq<Report>, now: int)
    requires RowsOk(start)
    ensures RunSoFar(start, now, 0, [], start)
  {}

  lemma RunSoFarStep(start: seq<Report>, now: int, n: nat, done: seq<Warned>, reports: seq<Report>)
    requires RunSoFar(start, now, n, done, reports)
    ensures var warned := First(AllOwed(reports, now), BATCH);
            && RunSoFar(start, now, n + BATCH, done + warned, MarkFirst(reports, now, BATCH))
            && (|warned| < BATCH ==> |AllOwed(start, now)| < n + BATCH)
  {
    MarkedAreSettled(start, now, n);
    BatchesAdd(start, now, n, BATCH);
    NextBatch(AllOwed(start, now), n, BATCH);
  }

  lemma RunIsDone(start: seq<Report>, now: int, n: nat, done: seq<Warned>, reports: seq<Report>)
    requires RunSoFar(start, now, n, done, reports) && n <= BATCH * MAX_BATCHES
    requires n == BATCH * MAX_BATCHES || |AllOwed(start, now)| <= n
    ensures done == First(AllOwed(start, now), BATCH * MAX_BATCHES) && RanFrom(start, now, done, reports)
  {
    ShortRunIsWhole(start, now, n, BATCH * MAX_BATCHES);
    MarkedAreSettled(start, now, BATCH * MAX_BATCHES);
    StagesAreAll(done);
  }

  /** The first n and then the first m of what is left are the first n + m. */
  lemma NextBatch<T>(all: seq<T>, n: nat, m: nat)
    ensures First(all, n) + First(all[|First(all, n)|..], m) == First(all, n + m)
    ensures |First(all[|First(all, n)|..], m)| < m ==> |all| < n + m
  {}

  lemma TakeOne(rest: seq<Report>, now: int, n: nat)
    requires rest != [] && n > 0 && Owed(rest[0], now)
    ensures First(AllOwed(rest, now), n)
            == [Warned(rest[0].id, StageAt(rest[0], now), rest[0].due)] + First(AllOwed(rest[1..], now), n - 1)
  {
    assert AllOwed(rest, now)[1..] == AllOwed(rest[1..], now);
  }

  /** More room than there is to warn about changes nothing. */
  lemma {:induction false} ShortRunIsWhole(reports: seq<Report>, now: int, n: nat, m: nat)
    requires n <= m && (n == m || |AllOwed(reports, now)| <= n)
    ensures MarkFirst(reports, now, n) == MarkFirst(reports, now, m)
    decreases reports
  {
    if n < m {
      EnoughRoomMarksAll(reports, now, n);
      EnoughRoomMarksAll(reports, now, m);
    }
  }

  /** A lone run over what is owed warns the nearest deadlines first, exactly the smaller of
      1000 and all of it; and leaves nothing owed when there were at most 1000. */
  lemma LoneRun(reports: seq<Report>, now: int)
    requires InQueueOrder(reports) && RowsOk(reports)
    ensures var owed := AllOwed(reports, now);
            var warned := First(owed, BATCH * MAX_BATCHES);
            var after := MarkFirst(reports, now, BATCH * MAX_BATCHES);
            && |warned| == (if |owed| < 1000 then |owed| else 1000)
            && (forall w, left :: w in warned && left in AllOwed(after, now) ==> w.due <= left.due)
            && (|owed| <= 1000 <==> AllOwed(after, now) == [])
  {
    var owed := AllOwed(reports, now);
    MarkedAreSettled(reports, now, BATCH * MAX_BATCHES);
    OwedInOrder(reports, now);
    var after := AllOwed(MarkFirst(reports, now, BATCH * MAX_BATCHES), now);
    var warned := First(owed, BATCH * MAX_BATCHES);
    forall w, left | w in warned && left in after ensures w.due <= left.due {
      var i :| 0 <= i < |warned| && warned[i] == w;
      var j :| 0 <= j < |after| && after[j] == left;
      assert owed[i] == w && owed[|warned| + j] == left;
    }
  }

  /** The reports after `k` runs at one moment. */
  function AfterRuns(reports: seq<Report>, now: int, k: nat): seq<Report> {
    if k == 0 then reports else MarkFirst(AfterRuns(reports, now, k - 1), now, BATCH * MAX_BATCHES)
  }

  /** What a run leaves is the next one's: `k` runs warn about the first k * 1000 owed, leave the
      rest, and leave none exactly when there were no more. */
  lemma {:induction false} RunsClearTheBacklog(reports: seq<Report>, now: int, k: nat)
    requires RowsOk(reports)
    ensures AfterRuns(reports, now, k) == MarkFirst(reports, now, 1000 * k)
    ensures AllOwed(AfterRuns(reports, now, k), now) == AllOwed(reports, now)[|First(AllOwed(reports, now), 1000 * k)|..]
    ensures AllOwed(AfterRuns(reports, now, k), now) == [] <==> |AllOwed(reports, now)| <= 1000 * k
  {
    MarkedAreSettled(reports, now, 1000 * k);
    if k > 0 {
      RunsClearTheBacklog(reports, now, k - 1);
      BatchesAdd(reports, now, 1000 * (k - 1), BATCH * MAX_BATCHES);
    }
  }
}

/**
 When a report is warned about, with a run at every five-minute mark that clears what it owes
 (app/modules/admin/report_clock_jobs.py, report_clocks.py).
 */
module ReportTiming {
  import opened Wrappers
  import opened ReportClocks
  import opened ReportQueue

  const PERIOD := 5 * MINUTE

  /** What one run does to one report, when the run clears everything it owes. */
  function AfterRun(r: Report, now: int): Report {
    if Owed(r, now) then Mark(r, now) else r
  }

  /** A whole run does exactly this to every report, while at most 1000 are owed. */
  lemma ARunClearsEachReport(reports: seq<Report>, now: int, i: nat)
    requires i < |reports| && |AllOwed(reports, now)| <= BATCH * MAX_BATCHES
    ensures |MarkFirst(reports, now, BATCH * MAX_BATCHES)| == |reports|
    ensures MarkFirst(reports, now, BATCH * MAX_BATCHES)[i] == AfterRun(reports[i], now)
  {
    EnoughRoomMarksAll(reports, now, BATCH * MAX_BATCHES);
  }

  /** A report as filed. */
  function Filed(id: nat, category: Category, filedAt: int): Report {
    Report(id, category, DueAt(category, filedAt), true, None, None)
  }

  /** The report before run number `k`, when `first` is the first run after it was filed and it
      is still open. Run number k is at k * PERIOD. */
  function BeforeRun(r: Report, first: int, k: int): Report
    requires first <= k
    decreases k - first
  {
    if k == first then r else AfterRun(BeforeRun(r, first, k - 1), (k - 1) * PERIOD)
  }

  /** What run number `k` warns about the report as, if it does. */
  function WarnedAt(r: Report, first: int, k: int): Option<Stage>
    requires first <= k
  {
    var before := BeforeRun(r, first, k);
    if Owed(before, k * PERIOD) then Some(StageAt(before, k * PERIOD)) else None
  }

  /** The first run at or after a moment. */
  function RunFrom(moment: int): int {
    (moment + PERIOD - 1) / PERIOD
  }

  lemma RunFromIsFirst(moment: int, k: int)
    ensures moment <= RunFrom(moment) * PERIOD < moment + PERIOD
    ensures k < RunFrom(moment) <==> k * PERIOD < moment
  {}

  /** Where the report's two marks stand before run number `k`. */
  lemma {:induction false} MarksBeforeRun(id: nat, category: Category, filedAt: int, first: int, k: int)
    requires first == RunFrom(filedAt) <= k
    ensures var r := Filed(id, category, filedAt);
            var soon, late := RunFrom(r.due - DUE_SOON), RunFrom(r.due + 1);
            && first <= soon < late
            && BeforeRun(r, first, k)
               == r.(soonAt := if k <= soon then None else Some(soon * PERIOD),
                     lateAt := if k <= late then None else Some(late * PERIOD))
    decreases k - first
  {
    var r := Filed(id, category, filedAt);
    var soon, late := RunFrom(r.due - DUE_SOON), RunFrom(r.due + 1);
    RunFromIsFirst(filedAt, k - 1);
    RunFromIsFirst(r.due - DUE_SOON, k - 1);
    RunFromIsFirst(r.due + 1, k - 1);
    assert first <= soon by { RunFromIsFirst(filedAt, soon); }
    assert soon < late by { RunFromIsFirst(r.due + 1, soon); }
    if k > first {
      MarksBeforeRun(id, category, filedAt, first, k - 1);
    }
  }

  /** The timing promise, for every category: a report left open is warned about as due soon by
      exactly one run, between 30 and 25 minutes before its deadline, and as overdue by exactly
      one, within 5 minutes after it; no other run warns about it. */
  lemma WarnedOnTime(id: nat, category: Category, filedAt: int, k: int)
    requires RunFrom(filedAt) <= k
    ensures var r := Filed(id, category, filedAt);
            var soon, late := RunFrom(r.due - DUE_SOON), RunFrom(r.due + 1);
            && WarnedAt(r, RunFrom(filedAt), k)
               == (if k == soon then Some(DueSoon) else if k == late then Some(Overdue) else None)
            && RunFrom(filedAt) <= soon < late
            && r.due - 30 * MINUTE <= soon * PERIOD < r.due - 25 * MINUTE
            && r.due < late * PERIOD <= r.due + 5 * MINUTE
  {
    var r := Filed(id, category, filedAt);
    var soon, late := RunFrom(r.due - DUE_SOON), RunFrom(r.due + 1);
    MarksBeforeRun(id, category, filedAt, RunFrom(filedAt), k);
    RunFromIsFirst(r.due - DUE_SOON, k);
    RunFromIsFirst(r.due + 1, k);
  }
}

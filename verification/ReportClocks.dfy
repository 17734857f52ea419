/**
 The deadlines of reports and takedowns (app/modules/admin/report_clocks.py,
 takedown_clocks.py) and what a report row says about its warnings. Times are whole
 microseconds, as datetimes are.
 */
module ReportClocks {
  import opened Wrappers

  const MINUTE := 60_000_000
  const HOUR := 60 * MINUTE
  const DAY := 24 * HOUR

  const DUE_SOON := 30 * MINUTE

  const ORDER_WITHIN := 3 * HOUR
  const OLDEST_ORDER := 30 * DAY

  datatype Category = Impersonation | IntimateContent | Abuse | FakeProfile | Spam | OtherReason | NonPayment

  function AnswerWithin(category: Category): int {
    match category
    case Impersonation => 2 * HOUR
    case IntimateContent => 2 * HOUR
    case Abuse => 36 * HOUR
    case FakeProfile => 36 * HOUR
    case Spam => 36 * HOUR
    case OtherReason => 36 * HOUR
    case NonPayment => 7 * DAY
  }

  function DueAt(category: Category, filedAt: int): int {
    filedAt + AnswerWithin(category)
  }

  function OrderDueAt(receivedAt: int): int {
    receivedAt + ORDER_WITHIN
  }

  datatype Stage = DueSoon | Overdue

  /** `soonAt` and `lateAt` are due_soon_alerted_at and overdue_alerted_at. */
  datatype Report = Report(id: nat, category: Category, due: int, open: bool, soonAt: Option<int>, lateAt: Option<int>)

  /** The WHERE of _waiting_for_a_warning. */
  predicate Owed(r: Report, now: int) {
    && r.open
    && r.due <= now + DUE_SOON
    && (r.soonAt == None || (r.lateAt == None && r.due < now))
  }

  function StageAt(r: Report, now: int): Stage {
    if r.due < now then Overdue else DueSoon
  }

  /** What _warn_batch writes on a report. */
  function Mark(r: Report, now: int): Report {
    if r.due < now then
      r.(lateAt := Some(now), soonAt := if r.soonAt == None then Some(now) else r.soonAt)
    else r.(soonAt := Some(now))
  }

  /** The row's CHECK, and that late is never marked without due soon. */
  predicate RowOk(r: Report) {
    match r.lateAt
    case None => true
    case Some(at) => at > r.due && r.soonAt.Some?
  }

  /** A warned report is not owed a warning at the same moment; the mark it gained is the one
      of its stage, was not there before, and keeps the row's checks. */
  lemma MarkSettles(r: Report, now: int)
    requires RowOk(r) && Owed(r, now)
    ensures RowOk(Mark(r, now)) && !Owed(Mark(r, now), now)
    ensures StageAt(r, now).Overdue? ==> r.lateAt == None && Mark(r, now).lateAt == Some(now) && now > r.due
    ensures StageAt(r, now).DueSoon? ==> r.soonAt == None && Mark(r, now).soonAt == Some(now) && Mark(r, now).lateAt == r.lateAt
  {}
}

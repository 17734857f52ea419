/**
 The acts themselves: file_report (report_service.py), withhold and lift
 (takedown_service.py), suspend, restore and resolve_report (admin_service.py), all in
 app/modules/admin. Where an act reads before it writes without a lock, what other requests
 commit in between is a parameter.
 */
module ModerationDesk {
  import opened Wrappers
  import opened ModerationRows
  import opened ModerationHistory
  import Clocks = ReportClocks

  datatype Order = Order(basis: Basis, issuedBy: string, reference: string, provision: Option<string>,
                         sealed: bool, receivedAt: int)

  /** What the request's schema demands of an order. */
  predicate OrderOk(o: Order) {
    !o.basis.OnReport? && Between(Some(o.issuedBy), 3, 200) && Between(Some(o.reference), 1, 200)
    && Between(o.provision, 3, 200)
  }

  datatype Failure =
    | SubjectNotFound | CannotReportYourself | ReportNotFound | NamesAnotherItem | OrderTimeNotPossible
    | AlreadyWithheld | TakedownNotFound | AlreadyLifted | AccountNotFound | TargetNotAllowed
    | AlreadySuspended | NotSuspended | AlreadyResolved
    | Conflict // an IntegrityError passed on: a 500

  datatype Filed = Filed(report: Id, alreadyOpen: bool)

  /** _clock: when it reached us and when it is due. */
  function Clock(reports: map<Id, Report>, order: Option<Order>, report: Option<Id>, subject: Subject, now: int)
    : Result<(int, int), Failure>
  {
    if report.Some? && report.value !in reports then Err(ReportNotFound)
    else if report.Some? && reports[report.value].subject != subject then Err(NamesAnotherItem)
    else if order.None? then
      if report.None? then Err(ReportNotFound)
      else Ok((reports[report.value].createdAt, reports[report.value].due))
    else if order.value.receivedAt > now || order.value.receivedAt < now - Clocks.OLDEST_ORDER then
      Err(OrderTimeNotPossible)
    else Ok((order.value.receivedAt, Clocks.OrderDueAt(order.value.receivedAt)))
  }

  function NewTakedown(admin: Id, subject: Subject, item: Item, order: Option<Order>, report: Option<Id>,
                       clock: (int, int), now: int): Takedown
  {
    var onOrder := match order
      case None => (OnReport, None, None, None, false)
      case Some(o) => (o.basis, Some(o.issuedBy), Some(o.reference), o.provision, o.sealed);
    Takedown(subject, item.owner, onOrder.0, onOrder.1, onOrder.2, onOrder.3, onOrder.4, report,
             clock.0, clock.1, now, admin, item.text, None, None)
  }

  /** The owner, the text as it stood, the server's time; the order's clock of 3 hours, or none of
      an order's details. */
  predicate Records(t: Takedown, admin: Id, subject: Subject, item: Item, order: Option<Order>, report: Option<Id>, now: int) {
    && t.subject == subject && t.owner == item.owner && t.preserved == item.text
    && t.withheldAt == now && t.withheldBy == admin && t.report == report && Active(t)
    && match order
       case None => t.basis == OnReport && t.issuedBy == None && t.reference == None && t.provision == None && !t.sealed
       case Some(o) =>
         && t.basis == o.basis && t.issuedBy == Some(o.issuedBy) && t.reference == Some(o.reference)
         && t.provision == o.provision && t.sealed == o.sealed
         && t.receivedAt == o.receivedAt && t.due == o.receivedAt + 3 * Clocks.HOUR
  }

  function NewReport(reporter: Id, subject: Subject, category: Clocks.Category, now: int): Report {
    Report(reporter, subject, category, now, Clocks.DueAt(category, now), Open, None)
  }

  /** The rows the service builds meet the schema's CHECKs, every one, for an order; and for a
      report exactly when the report was not filed later than `now`. */
  lemma WithholdMeetsTheChecks(reports: map<Id, Report>, admin: Id, subject: Subject, item: Item,
                               order: Option<Order>, report: Option<Id>, now: int)
    requires forall id :: id in reports ==> ReportChecks(reports[id])
    requires order.Some? ==> OrderOk(order.value)
    requires Clock(reports, order, report, subject, now).Ok?
    ensures TakedownChecks(NewTakedown(admin, subject, item, order, report,
                                       Clock(reports, order, report, subject, now).value, now))
       <==> (order.None? ==> reports[report.value].createdAt <= now)
  {
    if order.None? {
      assert ReportChecks(reports[report.value]);
    }
  }

  class Session {
    var db: Db

    constructor (db: Db)
      ensures this.db == db
    {
      this.db := db;
    }

    /** Other requests' transactions. */
    method Meanwhile(others: seq<Event>)
      modifies this
      ensures db == Run(old(db), others)
      ensures Sound(old(db)) ==> Sound(db)
    {
      if Sound(db) {
        RunIsSound(db, others);
      }
      var rest := others;
      while rest != []
        invariant Run(db, rest) == Run(old(db), others)
        decreases rest
      {
        db, rest := Step(db, rest[0]), rest[1..];
      }
    }

    method LogAction(admin: Id, act: Act, now: int, account: Option<Id>, report: Option<Id>, note: string)
      modifies this
      ensures db == Logged(old(db), Entry(admin, act, account, report, note, now))
    {
      db := db.(log := db.log + [Entry(admin, act, account, report, note, now)]);
    }

    method Record(notice: Notice)
      modifies this
      ensures db == Noted(old(db), notice)
    {
      db := db.(notices := db.notices + multiset{notice});
    }

    // ---- suspending ------------------------------------------------------------------------------

    method SuspendAccount(admin: Id, id: Id, reason: string, note: string, now: int)
      returns (r: Result<Account, Failure>)
      modifies this
      ensures db == Step(old(db), Suspend(admin, id, reason, note, now))
      ensures r.Err? ==> db == old(db)
      ensures r == Err(AccountNotFound) <==> id !in old(db).accounts
      ensures r == Err(TargetNotAllowed) <==> id in old(db).accounts && old(db).accounts[id].role.Admin?
      ensures r == Err(AlreadySuspended) <==> IsTarget(old(db), id) && old(db).accounts[id].suspendedAt.Some?
      ensures r.Ok? <==> IsTarget(old(db), id) && old(db).accounts[id].suspendedAt.None?
      ensures r.Ok? ==>
                && r.value == old(db).accounts[id].(suspendedAt := Some(now), reason := Some(reason))
                && db == old(db).(accounts := old(db).accounts[id := r.value],
                                  log := old(db).log + [Entry(admin, SuspendAct, Some(id), None, note, now)])
    {
      if id !in db.accounts {
        return Err(AccountNotFound);
      }
      var account := db.accounts[id];
      if account.role.Admin? {
        return Err(TargetNotAllowed);
      }
      if account.suspendedAt.Some? {
        return Err(AlreadySuspended);
      }
      account := account.(suspendedAt := Some(now), reason := Some(reason));
      db := db.(accounts := db.accounts[id := account]);
      LogAction(admin, SuspendAct, now, Some(id), None, note);
      return Ok(account);
    }

    method RestoreAccount(admin: Id, id: Id, note: string, now: int) returns (r: Result<Account, Failure>)
      modifies this
      ensures db == Step(old(db), Restore(admin, id, note, now))
      ensures r.Err? ==> db == old(db)
      ensures r == Err(AccountNotFound) <==> id !in old(db).accounts
      ensures r == Err(TargetNotAllowed) <==> id in old(db).accounts && old(db).accounts[id].role.Admin?
      ensures r == Err(NotSuspended) <==> IsTarget(old(db), id) && old(db).accounts[id].suspendedAt.None?
      ensures r.Ok? <==> IsTarget(old(db), id) && old(db).accounts[id].suspendedAt.Some?
      ensures r.Ok? ==>
                && r.value == old(db).accounts[id].(suspendedAt := None, reason := None)
                && db == old(db).(accounts := old(db).accounts[id := r.value],
                                  log := old(db).log + [Entry(admin, RestoreAct, Some(id), None, note, now)])
    {
      if id !in db.accounts {
        return Err(AccountNotFound);
      }
      var account := db.accounts[id];
      if account.role.Admin? {
        return Err(TargetNotAllowed);
      }
      if account.suspendedAt.None? {
        return Err(NotSuspended);
      }
      account := account.(suspendedAt := None, reason := None);
      db := db.(accounts := db.accounts[id := account]);
      LogAction(admin, RestoreAct, now, Some(id), None, note);
      return Ok(account);
    }

    // ---- reports ---------------------------------------------------------------------------------

    /** _open_report. */
    method OpenReport(reporter: Id, subject: Subject) returns (found: Option<Id>)
      ensures found.Some? ==> found.value in db.reports && OpenBy(db.reports[found.value], reporter, subject)
      ensures found.None? <==> !IsReported(db.reports, reporter, subject)
    {
      if IsReported(db.reports, reporter, subject) {
        var id :| id in db.reports && OpenBy(db.reports[id], reporter, subject);
        return Some(id);
      }
      return None;
    }

    /** file_report; `others` commit between its look and its insert, `later` between a refused
        insert and its second look. It writes one report and its acknowledgement, or nothing; and
        fails with an error of its own only when the report that refused it was closed meanwhile. */
    method FileReport(reporter: Id, subject: Subject, category: Clocks.Category, now: int, id: Id,
                      others: seq<Event>, later: seq<Event>) returns (r: Result<Filed, Failure>)
      modifies this
      ensures r == Err(SubjectNotFound) <==> subject !in old(db).items
      ensures r == Err(CannotReportYourself) <==> subject in old(db).items && old(db).items[subject].owner == reporter
      ensures r.Ok? && !r.value.alreadyOpen ==>
                && r.value.report == id && id !in Run(old(db), others).reports
                && !IsReported(Run(old(db), others).reports, reporter, subject)
                && db == Step(Run(old(db), others), InsertReport(id, NewReport(reporter, subject, category, now)))
                && id in db.reports && OpenBy(db.reports[id], reporter, subject)
                && db.reports[id].category == category && db.reports[id].createdAt == now
                && db == Run(old(db), others).(reports := Run(old(db), others).reports[id := db.reports[id]],
                                               notices := Run(old(db), others).notices + multiset{ReportReceived(reporter, id)})
      ensures r.Ok? && !r.value.alreadyOpen ==>
                id in db.reports && db.reports[id].due - now ==
                                    if category in {Clocks.Impersonation, Clocks.IntimateContent} then 2 * 60 * 60 * 1_000_000
                                    else if category == Clocks.NonPayment then 7 * 24 * 60 * 60 * 1_000_000
                                    else 36 * 60 * 60 * 1_000_000
      ensures r.Ok? && r.value.alreadyOpen ==>
                && r.value.report in db.reports && OpenBy(db.reports[r.value.report], reporter, subject)
                && db == if IsReported(old(db).reports, reporter, subject) then old(db)
                         else Run(Run(old(db), others), later)
      ensures r == Err(Conflict) ==>
                && db == Run(Run(old(db), others), later) && !IsReported(db.reports, reporter, subject)
                && (id in Run(old(db), others).reports || IsReported(Run(old(db), others).reports, reporter, subject))
      ensures r.Err? && r != Err(Conflict) ==> db == old(db)
      ensures Sound(old(db)) ==> Sound(db)
    {
      if subject !in db.items {
        return Err(SubjectNotFound);
      }
      if db.items[subject].owner == reporter {
        return Err(CannotReportYourself);
      }
      var existing := OpenReport(reporter, subject);
      if existing.Some? {
        return Ok(Filed(existing.value, true));
      }
      var report := NewReport(reporter, subject, category, now);
      Meanwhile(others);
      if ReportFits(db, id, report) {
        if Sound(db) {
          StepIsSound(db, InsertReport(id, report));
        }
        db := db.(reports := db.reports[id := report]);
        Record(ReportReceived(reporter, id));
        return Ok(Filed(id, false));
      }
      Meanwhile(later);
      var found := OpenReport(reporter, subject);
      return if found.Some? then Ok(Filed(found.value, true)) else Err(Conflict);
    }

    method ResolveReport(admin: Id, id: Id, outcome: Status, note: string, now: int)
      returns (r: Result<Report, Failure>)
      requires !outcome.Open?
      modifies this
      ensures db == Step(old(db), Resolve(admin, id, outcome, note, now))
      ensures r.Err? ==> db == old(db)
      ensures r == Err(ReportNotFound) <==> id !in old(db).reports
      ensures r.Ok? <==> id in old(db).reports && old(db).reports[id].status.Open?
      ensures r.Err? ==> r.error in {ReportNotFound, AlreadyResolved}
      ensures r.Ok? ==>
                && r.value == old(db).reports[id].(status := outcome, resolvedAt := Some(now))
                && db == old(db).(reports := old(db).reports[id := r.value],
                                  log := old(db).log + [Entry(admin, ResolveAct, None, Some(id), note, now)],
                                  notices := old(db).notices + multiset{ReportResolved(r.value.reporter, id, outcome)})
    {
      if id !in db.reports {
        return Err(ReportNotFound);
      }
      var report := db.reports[id];
      if !report.status.Open? {
        return Err(AlreadyResolved);
      }
      report := report.(status := outcome, resolvedAt := Some(now));
      db := db.(reports := db.reports[id := report]);
      LogAction(admin, ResolveAct, now, None, Some(id), note);
      Record(ReportResolved(report.reporter, id, outcome));
      return Ok(report);
    }

    // ---- takedowns -------------------------------------------------------------------------------

    /** withhold; `others` commit between its reads and its insert. */
    method Withhold(admin: Id, subject: Subject, order: Option<Order>, report: Option<Id>, note: string,
                    now: int, id: Id, others: seq<Event>) returns (r: Result<Takedown, Failure>)
      requires Sound(db) && (order.Some? ==> OrderOk(order.value))
      requires id !in Run(db, others).takedowns
      modifies this
      ensures Sound(db)
      ensures r == Err(SubjectNotFound) <==> subject !in old(db).items
      ensures subject in old(db).items ==>
                var clock := Clock(old(db).reports, order, report, subject, now);
                && (clock.Err? ==> r == Err(clock.error) && db == old(db))
                && (clock.Ok? ==>
                     var row := NewTakedown(admin, subject, old(db).items[subject], order, report, clock.value, now);
                     var filedLater := order.None? && old(db).reports[report.value].createdAt > now;
                     && db == Step(Run(old(db), others), InsertTakedown(id, row, note))
                     && (r == Err(Conflict) <==> filedLater)
                     && (r == Err(AlreadyWithheld) <==> !filedLater && IsWithheld(Run(old(db), others).takedowns, subject))
                     && (r.Ok? ==> r.value == row && Records(row, admin, subject, old(db).items[subject], order, report, now))
                     && (r.Ok? && order.None? ==>
                          row.receivedAt == old(db).reports[report.value].createdAt
                          && row.due == old(db).reports[report.value].due)
                     && (r.Err? ==> r.error in {Conflict, AlreadyWithheld} && db == Run(old(db), others)))
      ensures subject !in old(db).items ==> db == old(db)
      ensures r == Err(ReportNotFound) <==>
              subject in old(db).items && (if report.None? then order.None? else report.value !in old(db).reports)
      ensures r == Err(NamesAnotherItem) <==>
              && subject in old(db).items && report.Some? && report.value in old(db).reports
              && old(db).reports[report.value].subject != subject
      ensures r == Err(OrderTimeNotPossible) <==>
              && subject in old(db).items && order.Some?
              && (report.Some? ==> report.value in old(db).reports && old(db).reports[report.value].subject == subject)
              && !(now - 30 * 24 * 60 * 60 * 1_000_000 <= order.value.receivedAt <= now)
      ensures r.Ok? && report.Some? ==> report.value in old(db).reports && old(db).reports[report.value].subject == subject
      ensures r.Ok? && order.Some? ==>
                r.value.receivedAt == order.value.receivedAt && r.value.due == order.value.receivedAt + 3 * 60 * 60 * 1_000_000
      ensures r.Ok? ==>
                var found := Run(old(db), others);
                && id !in found.takedowns && !IsWithheld(found.takedowns, subject)
                && db == found.(takedowns := found.takedowns[id := r.value],
                                log := found.log + [Entry(admin, WithholdAct, Some(r.value.owner), report, note, now)],
                                notices := found.notices + multiset{ContentWithheld(r.value.owner, id)})
    {
      if subject !in db.items {
        return Err(SubjectNotFound);
      }
      var item := db.items[subject];
      var clock := Clock(db.reports, order, report, subject, now);
      if clock.Err? {
        return Err(clock.error);
      }
      WithholdMeetsTheChecks(db.reports, admin, subject, item, order, report, now);
      var takedown := NewTakedown(admin, subject, item, order, report, clock.value, now);
      Meanwhile(others);
      StepIsSound(db, InsertTakedown(id, takedown, note));
      if !TakedownFits(db, id, takedown) {
        return if TakedownChecks(takedown) then Err(AlreadyWithheld) else Err(Conflict);
      }
      db := db.(takedowns := db.takedowns[id := takedown]);
      LogAction(admin, WithholdAct, now, Some(takedown.owner), report, note);
      Record(ContentWithheld(takedown.owner, id));
      return Ok(takedown);
    }

    /** lift: the row's CHECK refuses a lift dated before the takedown. */
    method LiftTakedown(admin: Id, id: Id, note: string, now: int) returns (r: Result<Takedown, Failure>)
      modifies this
      ensures db == Step(old(db), Lift(admin, id, note, now))
      ensures r.Err? ==> db == old(db)
      ensures r == Err(TakedownNotFound) <==> id !in old(db).takedowns
      ensures r == Err(AlreadyLifted) <==> id in old(db).takedowns && !Active(old(db).takedowns[id])
      ensures r == Err(Conflict) <==>
              id in old(db).takedowns && Active(old(db).takedowns[id]) && now < old(db).takedowns[id].withheldAt
      ensures r.Ok? ==>
                && r.value == old(db).takedowns[id].(liftedAt := Some(now), liftedBy := Some(admin))
                && db == old(db).(takedowns := old(db).takedowns[id := r.value],
                                  log := old(db).log + [Entry(admin, LiftAct, Some(r.value.owner), r.value.report, note, now)],
                                  notices := old(db).notices + multiset{ContentRestored(r.value.owner, id)})
    {
      if id !in db.takedowns {
        return Err(TakedownNotFound);
      }
      var takedown := db.takedowns[id];
      if takedown.liftedAt.Some? {
        return Err(AlreadyLifted);
      }
      if now < takedown.withheldAt {
        return Err(Conflict);
      }
      takedown := takedown.(liftedAt := Some(now), liftedBy := Some(admin));
      db := db.(takedowns := db.takedowns[id := takedown]);
      LogAction(admin, LiftAct, now, Some(takedown.owner), takedown.report, note);
      Record(ContentRestored(takedown.owner, id));
      return Ok(takedown);
    }
  }
}

/**
 The moderation services under a clock that never goes back: what they write is never refused by
 a CHECK (takedown_service.py and report_service.py in app/modules/admin). Every row here is one a
 service built from what it read at its own `now`; its insert comes later, after anything else.
 */
module ModerationClock {
  import opened Wrappers
  import opened ModerationRows
  import opened ModerationHistory
  import opened ModerationDesk
  import Clocks = ReportClocks

  /** A takedown built and not yet inserted, with the admin's note. */
  datatype Pending = Pending(row: Takedown, note: string)

  datatype Desk = Desk(db: Db, now: int, takedowns: map<Id, Pending>, reports: map<Id, Report>)

  datatype Call =
    | Tick(millis: nat)
    | BeginFile(id: Id, reporter: Id, subject: Subject, category: Clocks.Category)
    | InsertFiled(id: Id)
    | BeginWithhold(id: Id, admin: Id, subject: Subject, order: Option<Order>, report: Option<Id>, note: string)
    | InsertWithheld(id: Id)
    | LiftNow(admin: Id, id: Id, note: string)
    | Other(event: Event)   // suspend, restore, resolve, view, and what else befalls accounts and items

  predicate WritesRows(e: Event) {
    e.InsertReport? || e.InsertTakedown? || e.Lift?
  }

  /** The row `withhold` builds now, if it gets past its refusals. A new id is new. */
  predicate MayBegin(d: Desk, c: Call)
    requires c.BeginWithhold?
  {
    && c.id !in d.takedowns && c.id !in d.db.takedowns
    && (c.order.Some? ==> OrderOk(c.order.value))
    && c.subject in d.db.items
    && Clock(d.db.reports, c.order, c.report, c.subject, d.now).Ok?
  }

  function Built(d: Desk, c: Call): Pending
    requires c.BeginWithhold? && MayBegin(d, c)
  {
    Pending(NewTakedown(c.admin, c.subject, d.db.items[c.subject], c.order, c.report,
                        Clock(d.db.reports, c.order, c.report, c.subject, d.now).value, d.now), c.note)
  }

  function Serve(d: Desk, c: Call): Desk {
    match c
    case Tick(t) => d.(now := d.now + t)
    case BeginFile(id, reporter, subject, category) =>
      if id in d.reports || id in d.db.reports then d
      else d.(reports := d.reports[id := NewReport(reporter, subject, category, d.now)])
    case InsertFiled(id) =>
      if id !in d.reports then d
      else d.(db := Step(d.db, InsertReport(id, d.reports[id])), reports := d.reports - {id})
    case BeginWithhold(id, _, _, _, _, _) =>
      if MayBegin(d, c) then d.(takedowns := d.takedowns[id := Built(d, c)]) else d
    case InsertWithheld(id) =>
      if id !in d.takedowns then d
      else d.(db := Step(d.db, InsertTakedown(id, d.takedowns[id].row, d.takedowns[id].note)),
              takedowns := d.takedowns - {id})
    case LiftNow(admin, id, note) => d.(db := Step(d.db, Lift(admin, id, note, d.now)))
    case Other(event) => if WritesRows(event) then d else d.(db := Step(d.db, event))
  }

  function ServeAll(d: Desk, calls: seq<Call>): Desk
    decreases calls
  {
    if calls == [] then d else ServeAll(Serve(d, calls[0]), calls[1..])
  }

  // ---- nothing is dated later than now -------------------------------------------------------------

  ghost predicate ReportsPast(reports: map<Id, Report>, now: int) {
    forall id :: id in reports ==> ReportChecks(reports[id]) && reports[id].createdAt <= now
  }

  ghost predicate TakedownsPast(takedowns: map<Id, Takedown>, now: int) {
    forall id :: id in takedowns ==> takedowns[id].withheldAt <= now
  }

  /** What waits to be inserted meets the CHECKs, is open or active, and has an id of its own. */
  ghost predicate FiledReady(d: Desk) {
    forall id :: id in d.reports ==>
      id !in d.db.reports && ReportChecks(d.reports[id]) && d.reports[id].status.Open? && d.reports[id].createdAt <= d.now
  }

  ghost predicate WithheldReady(d: Desk) {
    forall id :: id in d.takedowns ==>
      && id !in d.db.takedowns && TakedownChecks(d.takedowns[id].row) && Active(d.takedowns[id].row)
      && d.takedowns[id].row.withheldAt <= d.now
  }

  ghost predicate Forward(d: Desk) {
    && ReportsPast(d.db.reports, d.now) && TakedownsPast(d.db.takedowns, d.now)
    && FiledReady(d) && WithheldReady(d)
  }

  /** What a service builds meets the CHECKs: no report it reads was filed later than now. */
  lemma BuiltIsReady(d: Desk, c: Call)
    requires ReportsPast(d.db.reports, d.now) && c.BeginWithhold? && MayBegin(d, c)
    ensures TakedownChecks(Built(d, c).row) && Active(Built(d, c).row) && Built(d, c).row.withheldAt == d.now
  {
    WithholdMeetsTheChecks(d.db.reports, c.admin, c.subject, d.db.items[c.subject], c.order, c.report, d.now);
  }

  /** How a transaction moves the rows' dates: not at all, or by the row it inserts. */
  lemma ReportsStayPast(before: map<Id, Report>, e: Event, after: map<Id, Report>, now: int)
    requires MovesReports(before, e, after) && ReportsPast(before, now)
    requires e.InsertReport? ==> e.report.createdAt <= now
    ensures ReportsPast(after, now)
    ensures forall id :: id in after ==> id in before || (e.InsertReport? && e.id == id)
  {}

  lemma TakedownsStayPast(before: map<Id, Takedown>, e: Event, after: map<Id, Takedown>, now: int)
    requires MovesTakedowns(before, e, after) && TakedownsPast(before, now)
    requires e.InsertTakedown? ==> e.takedown.withheldAt <= now
    ensures TakedownsPast(after, now)
    ensures forall id :: id in after ==> id in before || (e.InsertTakedown? && e.id == id)
  {}

  /** The transaction a call commits, if it commits one. */
  function Committed(d: Desk, c: Call): Option<Event> {
    match c
    case InsertFiled(id) => if id in d.reports then Some(InsertReport(id, d.reports[id])) else None
    case InsertWithheld(id) =>
      if id in d.takedowns then Some(InsertTakedown(id, d.takedowns[id].row, d.takedowns[id].note)) else None
    case LiftNow(admin, id, note) => Some(Lift(admin, id, note, d.now))
    case Other(event) => if WritesRows(event) then None else Some(event)
    case _ => None
  }

  lemma ServeStaysForward(d: Desk, c: Call)
    requires Forward(d)
    ensures Forward(Serve(d, c)) && d.now <= Serve(d, c).now
  {
    var e := Committed(d, c);
    if e.Some? {
      var t := Step(d.db, e.value);
      StepMovesTables(d.db, e.value);
      ReportsStayPast(d.db.reports, e.value, t.reports, d.now);
      TakedownsStayPast(d.db.takedowns, e.value, t.takedowns, d.now);
    } else if c.BeginWithhold? && MayBegin(d, c) {
      BuiltIsReady(d, c);
    }
  }

  lemma ServeStaysSound(d: Desk, c: Call)
    requires Sound(d.db)
    ensures Sound(Serve(d, c).db)
  {
    var e := Committed(d, c);
    if e.Some? {
      StepIsSound(d.db, e.value);
    }
  }

  lemma {:induction false} ServedStaysForward(d: Desk, calls: seq<Call>)
    requires Forward(d) && Sound(d.db)
    ensures Forward(ServeAll(d, calls)) && Sound(ServeAll(d, calls).db)
    decreases calls
  {
    if calls != [] {
      ServeStaysForward(d, calls[0]);
      ServeStaysSound(d, calls[0]);
      ServedStaysForward(Serve(d, calls[0]), calls[1..]);
    }
  }

  function Opening(now: int): Desk {
    Desk(Empty, now, map[], map[])
  }

  lemma LiftsGoThrough(d: Desk, id: Id, admin: Id, note: string)
    requires Forward(d)
    ensures id in d.db.takedowns && Active(d.db.takedowns[id]) ==>
              id in Serve(d, LiftNow(admin, id, note)).db.takedowns
              && Serve(d, LiftNow(admin, id, note)).db.takedowns[id].liftedAt == Some(d.now)
  {}

  lemma OneActiveRefuses(d: Desk, id: Id)
    requires Forward(d)
    ensures id in d.takedowns ==>
              (id in Serve(d, InsertWithheld(id)).db.takedowns
               <==> !IsWithheld(d.db.takedowns, d.takedowns[id].row.subject))
  {}

  lemma OneOpenRefuses(d: Desk, id: Id)
    requires Forward(d)
    ensures id in d.reports ==>
              (id in Serve(d, InsertFiled(id)).db.reports
               <==> !IsReported(d.db.reports, d.reports[id].reporter, d.reports[id].subject))
  {}

  /** In every state the services reach under a clock that never goes back, no CHECK and no other
      key refuses what they write. A lift of an active takedown goes through; a takedown built
      earlier is refused exactly when its item has an active one by now, and a report exactly when
      its reporter has an open one about that item. */
  lemma OnlyDuplicatesAreRefused(start: int, calls: seq<Call>, id: Id, admin: Id, note: string)
    ensures var d := ServeAll(Opening(start), calls);
            && (id in d.db.takedowns && Active(d.db.takedowns[id]) ==>
                 id in Serve(d, LiftNow(admin, id, note)).db.takedowns
                 && Serve(d, LiftNow(admin, id, note)).db.takedowns[id].liftedAt == Some(d.now))
            && (id in d.takedowns ==>
                 (id in Serve(d, InsertWithheld(id)).db.takedowns
                  <==> !IsWithheld(d.db.takedowns, d.takedowns[id].row.subject)))
            && (id in d.reports ==>
                 (id in Serve(d, InsertFiled(id)).db.reports
                  <==> !IsReported(d.db.reports, d.reports[id].reporter, d.reports[id].subject)))
  {
    EmptyIsSound();
    ServedStaysForward(Opening(start), calls);
    var d := ServeAll(Opening(start), calls);
    LiftsGoThrough(d, id, admin, note);
    OneActiveRefuses(d, id);
    OneOpenRefuses(d, id);
  }
}

/**
 The rows behind reports, suspensions, takedowns and the admin log, with the CHECKs and unique
 indexes their migrations declare (app/modules/admin, app/modules/safety/takedown_models.py,
 alembic/versions/4a2f6982641f_takedowns_one_item_withheld_on_a_legal_.py). One event is one
 committed transaction.
 */
module ModerationRows {
  import opened Wrappers
  import Clocks = ReportClocks

  type Id = nat

  datatype Kind = CreatorItem | BrandItem | CampaignItem
  datatype Subject = Subject(kind: Kind, id: Id)

  /** What can be reported or withheld: its owner's account and its visible text. */
  datatype Item = Item(owner: Id, text: string)

  datatype Role = Admin | Brand | Creator
  datatype Account = Account(role: Role, suspendedAt: Option<int>, reason: Option<string>)

  datatype Status = Open | Actioned | Dismissed
  datatype Report = Report(reporter: Id, subject: Subject, category: Clocks.Category, createdAt: int,
                           due: int, status: Status, resolvedAt: Option<int>)

  datatype Basis = CourtOrder | GovernmentNotice | OnReport
  datatype Takedown = Takedown(
    subject: Subject, owner: Id, basis: Basis, issuedBy: Option<string>, reference: Option<string>,
    provision: Option<string>, sealed: bool, report: Option<Id>, receivedAt: int, due: int,
    withheldAt: int, withheldBy: Id, preserved: string, liftedAt: Option<int>, liftedBy: Option<Id>)

  datatype Act = SuspendAct | RestoreAct | ResolveAct | WithholdAct | LiftAct | ViewAct
  datatype Entry = Entry(admin: Id, act: Act, account: Option<Id>, report: Option<Id>, note: string, at: int)

  datatype Notice =
    | ReportReceived(account: Id, report: Id)
    | ReportResolved(account: Id, report: Id, outcome: Status)
    | ContentWithheld(account: Id, takedown: Id)
    | ContentRestored(account: Id, takedown: Id)

  datatype Db = Db(
    accounts: map<Id, Account>, items: map<Subject, Item>, reports: map<Id, Report>,
    takedowns: map<Id, Takedown>, log: seq<Entry>, notices: multiset<Notice>)

  // ---- what the database holds each row to ---------------------------------------------------------

  predicate Between(text: Option<string>, least: nat, most: nat) {
    text.Some? ==> least <= |text.value| <= most
  }

  /** The CHECKs of the takedown table, the preserved text's size apart. */
  predicate TakedownChecks(t: Takedown) {
    && (t.basis.OnReport? <==> t.issuedBy == None)
    && (t.basis.OnReport? <==> t.reference == None)
    && (t.basis.OnReport? ==> t.provision == None && !t.sealed)
    && (t.basis.OnReport? ==> t.receivedAt < t.due <= t.receivedAt + 7 * Clocks.DAY)
    && (!t.basis.OnReport? ==> t.due == t.receivedAt + 3 * Clocks.HOUR)
    && t.receivedAt <= t.withheldAt
    && (!t.basis.OnReport? ==> t.receivedAt >= t.withheldAt - 30 * Clocks.DAY)
    && (t.liftedAt.None? <==> t.liftedBy.None?)
    && (t.liftedAt.Some? ==> t.liftedAt.value >= t.withheldAt)
    && Between(t.issuedBy, 3, 200) && Between(t.provision, 3, 200) && Between(t.reference, 1, 200)
  }

  /** The CHECKs of the report table that these rows touch. */
  predicate ReportChecks(r: Report) {
    && r.createdAt < r.due <= r.createdAt + 7 * Clocks.DAY
    && (r.status.Open? <==> r.resolvedAt.None?)
  }

  predicate Active(t: Takedown) {
    t.liftedAt.None?
  }

  /** uq_takedown_active_subject has an entry for `subject`. */
  predicate IsWithheld(takedowns: map<Id, Takedown>, subject: Subject) {
    exists id :: id in takedowns && Active(takedowns[id]) && takedowns[id].subject == subject
  }

  /** uq_report_open_per_reporter has an entry for this reporter and subject. */
  predicate IsReported(reports: map<Id, Report>, reporter: Id, subject: Subject) {
    exists id :: id in reports && OpenBy(reports[id], reporter, subject)
  }

  predicate OpenBy(r: Report, reporter: Id, subject: Subject) {
    r.status.Open? && r.reporter == reporter && r.subject == subject
  }

  // ---- one committed transaction -------------------------------------------------------------------

  datatype Event =
    | InsertReport(id: Id, report: Report)
    | InsertTakedown(id: Id, takedown: Takedown, note: string)
    | Lift(admin: Id, id: Id, note: string, now: int)
    | Suspend(admin: Id, id: Id, reason: string, note: string, now: int)
    | Restore(admin: Id, id: Id, note: string, now: int)
    | Resolve(admin: Id, id: Id, outcome: Status, note: string, now: int)
    | View(admin: Id, id: Id, note: string, now: int)
    | FounderSets(id: Id, suspended: Option<(int, string)>)
    | OpenAccount(id: Id, role: Role)
    | PutItem(subject: Subject, item: Item)
    | DropItem(subject: Subject)

  /** The insert meets the table's constraints: then the row is written with its
      acknowledgement. Otherwise it is an IntegrityError, and nothing is. */
  predicate ReportFits(s: Db, id: Id, r: Report) {
    id !in s.reports && ReportChecks(r) && r.status.Open? && !IsReported(s.reports, r.reporter, r.subject)
  }

  predicate TakedownFits(s: Db, id: Id, t: Takedown) {
    id !in s.takedowns && TakedownChecks(t) && Active(t) && !IsWithheld(s.takedowns, t.subject)
  }

  function Logged(s: Db, e: Entry): Db {
    s.(log := s.log + [e])
  }

  function Noted(s: Db, n: Notice): Db {
    s.(notices := s.notices + multiset{n})
  }

  /** The account's row may be changed by an admin: it exists and is no admin's. */
  predicate IsTarget(s: Db, id: Id) {
    id in s.accounts && !s.accounts[id].role.Admin?
  }

  function Step(s: Db, e: Event): Db {
    match e
    case InsertReport(id, r) =>
      if ReportFits(s, id, r) then
        Noted(s.(reports := s.reports[id := r]), ReportReceived(r.reporter, id))
      else s
    case InsertTakedown(id, t, note) =>
      if TakedownFits(s, id, t) then
        Noted(Logged(s.(takedowns := s.takedowns[id := t]),
                     Entry(t.withheldBy, WithholdAct, Some(t.owner), t.report, note, t.withheldAt)),
              ContentWithheld(t.owner, id))
      else s
    case Lift(admin, id, note, now) =>
      if id in s.takedowns && Active(s.takedowns[id]) && now >= s.takedowns[id].withheldAt then
        var t := s.takedowns[id];
        Noted(Logged(s.(takedowns := s.takedowns[id := t.(liftedAt := Some(now), liftedBy := Some(admin))]),
                     Entry(admin, LiftAct, Some(t.owner), t.report, note, now)),
              ContentRestored(t.owner, id))
      else s
    case Suspend(admin, id, reason, note, now) =>
      if IsTarget(s, id) && s.accounts[id].suspendedAt.None? then
        Logged(s.(accounts := s.accounts[id := s.accounts[id].(suspendedAt := Some(now), reason := Some(reason))]),
               Entry(admin, SuspendAct, Some(id), None, note, now))
      else s
    case Restore(admin, id, note, now) =>
      if IsTarget(s, id) && s.accounts[id].suspendedAt.Some? then
        Logged(s.(accounts := s.accounts[id := s.accounts[id].(suspendedAt := None, reason := None)]),
               Entry(admin, RestoreAct, Some(id), None, note, now))
      else s
    case Resolve(admin, id, outcome, note, now) =>
      if id in s.reports && s.reports[id].status.Open? && !outcome.Open? then
        var r := s.reports[id];
        Noted(Logged(s.(reports := s.reports[id := r.(status := outcome, resolvedAt := Some(now))]),
                     Entry(admin, ResolveAct, None, Some(id), note, now)),
              ReportResolved(r.reporter, id, outcome))
      else s
    case View(admin, id, note, now) =>
      if id in s.accounts then Logged(s, Entry(admin, ViewAct, Some(id), None, note, now)) else s
    case FounderSets(id, suspended) =>
      if id in s.accounts && s.accounts[id].role.Admin? then
        s.(accounts := s.accounts[id := if suspended.None? then Account(Admin, None, None)
                                        else Account(Admin, Some(suspended.value.0), Some(suspended.value.1))])
      else s
    case OpenAccount(id, role) =>
      if id in s.accounts then s else s.(accounts := s.accounts[id := Account(role, None, None)])
    case PutItem(subject, item) => s.(items := s.items[subject := item])
    case DropItem(subject) => s.(items := s.items - {subject})
  }

  function Run(s: Db, events: seq<Event>): Db
    decreases events
  {
    if events == [] then s else Run(Step(s, events[0]), events[1..])
  }

  const Empty := Db(map[], map[], map[], map[], [], multiset{})
}

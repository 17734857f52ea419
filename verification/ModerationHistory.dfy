/**
 What every run of moderation acts keeps: the rows' rules, the past, and a log and
 notifications that tell the state (takedown_service.py, admin_service.py, report_service.py
 in app/modules/admin).
 */
module ModerationHistory {
  import opened Wrappers
  import opened ModerationRows

  // ---- the rules of the tables ---------------------------------------------------------------------

  /** Both are active, and they name one item. */
  predicate SameItem(a: Takedown, b: Takedown) {
    Active(a) && Active(b) && a.subject == b.subject
  }

  ghost predicate TakedownRules(takedowns: map<Id, Takedown>) {
    && (forall id :: id in takedowns ==> TakedownChecks(takedowns[id]))
    && (forall a, b :: a in takedowns && b in takedowns && SameItem(takedowns[a], takedowns[b]) ==> a == b)
  }

  /** Both are open, by one reporter about one item. */
  predicate SameReport(a: Report, b: Report) {
    b.status.Open? && OpenBy(a, b.reporter, b.subject)
  }

  ghost predicate ReportRules(reports: map<Id, Report>) {
    && (forall id :: id in reports ==> ReportChecks(reports[id]))
    && (forall a, b :: a in reports && b in reports && SameReport(reports[a], reports[b]) ==> a == b)
  }

  /** What a transaction can do to the takedowns: nothing, a new active row, or one lift. */
  predicate MovesTakedowns(before: map<Id, Takedown>, e: Event, after: map<Id, Takedown>) {
    || after == before
    || (e.InsertTakedown? && e.id !in before && TakedownChecks(e.takedown) && Active(e.takedown)
        && !IsWithheld(before, e.takedown.subject) && after == before[e.id := e.takedown])
    || (e.Lift? && e.id in before && Active(before[e.id]) && e.now >= before[e.id].withheldAt
        && after == before[e.id := before[e.id].(liftedAt := Some(e.now), liftedBy := Some(e.admin))])
  }

  /** And to the reports: nothing, a new open row, or one answer. */
  predicate MovesReports(before: map<Id, Report>, e: Event, after: map<Id, Report>) {
    || after == before
    || (e.InsertReport? && e.id !in before && ReportChecks(e.report) && e.report.status.Open?
        && !IsReported(before, e.report.reporter, e.report.subject) && after == before[e.id := e.report])
    || (e.Resolve? && e.id in before && before[e.id].status.Open? && !e.outcome.Open?
        && after == before[e.id := before[e.id].(status := e.outcome, resolvedAt := Some(e.now))])
  }

  lemma StepMovesTakedowns(s: Db, e: Event)
    ensures MovesTakedowns(s.takedowns, e, Step(s, e).takedowns)
  {}

  lemma StepMovesReports(s: Db, e: Event)
    ensures MovesReports(s.reports, e, Step(s, e).reports)
  {}

  lemma StepMovesTables(s: Db, e: Event)
    ensures MovesTakedowns(s.takedowns, e, Step(s, e).takedowns)
    ensures MovesReports(s.reports, e, Step(s, e).reports)
  {
    StepMovesTakedowns(s, e);
    StepMovesReports(s, e);
  }

  lemma MoveKeepsTakedownRules(before: map<Id, Takedown>, e: Event, after: map<Id, Takedown>)
    requires MovesTakedowns(before, e, after) && TakedownRules(before)
    ensures TakedownRules(after)
  {}

  lemma MoveKeepsReportRules(before: map<Id, Report>, e: Event, after: map<Id, Report>)
    requires MovesReports(before, e, after) && ReportRules(before)
    ensures ReportRules(after)
  {}

  // ---- the past is kept ----------------------------------------------------------------------------

  /** A takedown never changes but by being lifted, and a lifted one never. */
  predicate TakedownKept(before: Takedown, after: Takedown) {
    && after == before.(liftedAt := after.liftedAt, liftedBy := after.liftedBy)
    && (before.liftedAt.Some? ==> after == before)
  }

  predicate ReportKept(before: Report, after: Report) {
    && after == before.(status := after.status, resolvedAt := after.resolvedAt)
    && (!before.status.Open? ==> after == before)
  }

  ghost predicate PastKept(s: Db, t: Db) {
    && s.log <= t.log && s.notices <= t.notices
    && TakedownsKept(s.takedowns, t.takedowns) && ReportsKept(s.reports, t.reports)
  }

  ghost predicate TakedownsKept(before: map<Id, Takedown>, after: map<Id, Takedown>) {
    forall id :: id in before ==> id in after && TakedownKept(before[id], after[id])
  }

  ghost predicate ReportsKept(before: map<Id, Report>, after: map<Id, Report>) {
    forall id :: id in before ==> id in after && ReportKept(before[id], after[id])
  }

  lemma MoveKeepsTakedowns(before: map<Id, Takedown>, e: Event, after: map<Id, Takedown>)
    requires MovesTakedowns(before, e, after)
    ensures TakedownsKept(before, after)
  {}

  lemma MoveKeepsReports(before: map<Id, Report>, e: Event, after: map<Id, Report>)
    requires MovesReports(before, e, after)
    ensures ReportsKept(before, after)
  {}

  lemma StepKeepsRecord(s: Db, e: Event)
    ensures s.log <= Step(s, e).log && s.notices <= Step(s, e).notices
  {}

  lemma StepKeepsPast(s: Db, e: Event)
    ensures PastKept(s, Step(s, e))
  {
    StepMovesTables(s, e);
    MoveKeepsTakedowns(s.takedowns, e, Step(s, e).takedowns);
    MoveKeepsReports(s.reports, e, Step(s, e).reports);
    StepKeepsRecord(s, e);
  }

  lemma PastIsKeptOn(s: Db, t: Db, u: Db)
    requires PastKept(s, t) && PastKept(t, u)
    ensures PastKept(s, u)
  {
    forall id | id in s.takedowns ensures id in u.takedowns && TakedownKept(s.takedowns[id], u.takedowns[id]) {
      assert TakedownKept(s.takedowns[id], t.takedowns[id]);
    }
    forall id | id in s.reports ensures id in u.reports && ReportKept(s.reports[id], u.reports[id]) {
      assert ReportKept(s.reports[id], t.reports[id]);
    }
  }

  /** Nothing written is taken back: the log and the notices only grow, a takedown changes only
      when it is lifted and a report only when it is answered, and each at most once. */
  lemma {:induction false} RunKeepsPast(s: Db, events: seq<Event>)
    ensures PastKept(s, Run(s, events))
    decreases events
  {
    if events != [] {
      StepKeepsPast(s, events[0]);
      RunKeepsPast(Step(s, events[0]), events[1..]);
      PastIsKeptOn(s, Step(s, events[0]), Run(Step(s, events[0]), events[1..]));
    }
  }

  // ---- the log tells the state ---------------------------------------------------------------------

  predicate Says(e: Entry, act: Act, account: Id) {
    e.act == act && e.account == Some(account)
  }

  /** How often the log says `act` was done to `account`. */
  function Acts(log: seq<Entry>, act: Act, account: Id): nat {
    if log == [] then 0
    else Acts(log[..|log| - 1], act, account) + if Says(log[|log| - 1], act, account) then 1 else 0
  }

  /** How often the log says report `id` was resolved. */
  function Resolves(log: seq<Entry>, id: Id): nat {
    if log == [] then 0
    else
      var last := log[|log| - 1];
      Resolves(log[..|log| - 1], id) + if last.act == ResolveAct && last.report == Some(id) then 1 else 0
  }

  /** Whether the account stands suspended by the log: None when it was suspended while
      suspended, or restored while not. */
  function Replay(log: seq<Entry>, account: Id): Option<bool> {
    if log == [] then Some(false)
    else
      var before, last := Replay(log[..|log| - 1], account), log[|log| - 1];
      if Says(last, SuspendAct, account) then if before == Some(false) then Some(true) else None
      else if Says(last, RestoreAct, account) then if before == Some(true) then Some(false) else None
      else before
  }

  /** An alternating log counts one more suspension than restorations while suspended. */
  lemma {:induction false} AlternatingLogCounts(log: seq<Entry>, account: Id)
    requires Replay(log, account).Some?
    ensures Acts(log, SuspendAct, account) - Acts(log, RestoreAct, account)
            == if Replay(log, account) == Some(true) then 1 else 0
  {
    if log != [] {
      AlternatingLogCounts(log[..|log| - 1], account);
    }
  }

  lemma LogOneMore(log: seq<Entry>, e: Entry)
    ensures forall act, account :: Acts(log + [e], act, account)
                                   == Acts(log, act, account) + if Says(e, act, account) then 1 else 0
    ensures forall id: Id :: Resolves(log + [e], id)
                         == Resolves(log, id) + if e.act == ResolveAct && e.report == Some(id) then 1 else 0
    ensures forall account :: Replay(log + [e], account)
                              == if Says(e, SuspendAct, account) then
                                   if Replay(log, account) == Some(false) then Some(true) else None
                                 else if Says(e, RestoreAct, account) then
                                   if Replay(log, account) == Some(true) then Some(false) else None
                                 else Replay(log, account)
  {
    assert (log + [e])[..|log|] == log;
  }

  ghost predicate AccountsLogged(accounts: map<Id, Account>, log: seq<Entry>) {
    && (forall id :: id in accounts ==> (accounts[id].suspendedAt.Some? <==> accounts[id].reason.Some?))
    && (forall id :: id in accounts && !accounts[id].role.Admin? ==>
         Replay(log, id) == Some(accounts[id].suspendedAt.Some?))
    && (forall id :: id !in accounts || accounts[id].role.Admin? ==> Replay(log, id) == Some(false))
  }

  function ActiveOf(takedowns: map<Id, Takedown>, owner: Id): set<Id> {
    set id | id in takedowns && takedowns[id].owner == owner && Active(takedowns[id])
  }

  ghost predicate TakedownsLogged(takedowns: map<Id, Takedown>, log: seq<Entry>) {
    forall owner :: Acts(log, WithholdAct, owner) - Acts(log, LiftAct, owner) == |ActiveOf(takedowns, owner)|
  }

  ghost predicate ReportsLogged(reports: map<Id, Report>, log: seq<Entry>) {
    forall id: Id :: Resolves(log, id) == if id in reports && !reports[id].status.Open? then 1 else 0
  }

  function B2N(b: bool): nat {
    if b then 1 else 0
  }

  /** How often each notice was given, by the rows. */
  function Expected(reports: map<Id, Report>, takedowns: map<Id, Takedown>, n: Notice): nat {
    match n
    case ReportReceived(account, id) => B2N(id in reports && reports[id].reporter == account)
    case ReportResolved(account, id, outcome) =>
      B2N(id in reports && reports[id].reporter == account && reports[id].status == outcome && !outcome.Open?)
    case ContentWithheld(account, id) => B2N(id in takedowns && takedowns[id].owner == account)
    case ContentRestored(account, id) =>
      B2N(id in takedowns && takedowns[id].owner == account && !Active(takedowns[id]))
  }

  ghost predicate NoticesAgree(reports: map<Id, Report>, takedowns: map<Id, Takedown>, notices: multiset<Notice>) {
    forall n :: notices[n] == Expected(reports, takedowns, n)
  }

  lemma OtherActsLeaveAccounts(accounts: map<Id, Account>, log: seq<Entry>, e: Entry)
    requires AccountsLogged(accounts, log) && !e.act.SuspendAct? && !e.act.RestoreAct?
    ensures AccountsLogged(accounts, log + [e])
  {
    LogOneMore(log, e);
  }

  lemma SuspensionIsLogged(accounts: map<Id, Account>, log: seq<Entry>, e: Entry, id: Id, account: Account)
    requires AccountsLogged(accounts, log)
    requires id in accounts && account.role == accounts[id].role && !account.role.Admin?
    requires account.suspendedAt.Some? <==> account.reason.Some?
    requires Says(e, if account.suspendedAt.Some? then SuspendAct else RestoreAct, id)
    requires account.suspendedAt.Some? <==> accounts[id].suspendedAt.None?
    ensures AccountsLogged(accounts[id := account], log + [e])
  {
    LogOneMore(log, e);
    assert Replay(log, id) == Some(accounts[id].suspendedAt.Some?);
  }

  lemma StepLogsAccounts(s: Db, e: Event)
    requires AccountsLogged(s.accounts, s.log)
    ensures AccountsLogged(Step(s, e).accounts, Step(s, e).log)
  {
    var t := Step(s, e);
    if t.log != s.log {
      var last := t.log[|s.log|];
      assert t.log == s.log + [last];
      if e.Suspend? || e.Restore? {
        SuspensionIsLogged(s.accounts, s.log, last, e.id, t.accounts[e.id]);
      } else {
        OtherActsLeaveAccounts(s.accounts, s.log, last);
      }
    }
  }

  lemma OtherActsLeaveReports(reports: map<Id, Report>, log: seq<Entry>, e: Entry)
    requires ReportsLogged(reports, log) && !e.act.ResolveAct?
    ensures ReportsLogged(reports, log + [e])
  {
    LogOneMore(log, e);
  }

  lemma AnswerIsLogged(reports: map<Id, Report>, log: seq<Entry>, e: Entry, id: Id, r: Report)
    requires ReportsLogged(reports, log) && id in reports && reports[id].status.Open? && !r.status.Open?
    requires e.act.ResolveAct? && e.report == Some(id)
    ensures ReportsLogged(reports[id := r], log + [e])
  {
    LogOneMore(log, e);
  }

  lemma StepLogsReports(s: Db, e: Event)
    requires ReportsLogged(s.reports, s.log)
    ensures ReportsLogged(Step(s, e).reports, Step(s, e).log)
  {
    var t := Step(s, e);
    if t.log != s.log {
      var last := t.log[|s.log|];
      assert t.log == s.log + [last];
      if e.Resolve? {
        AnswerIsLogged(s.reports, s.log, last, e.id, t.reports[e.id]);
      } else {
        OtherActsLeaveReports(s.reports, s.log, last);
      }
    } else {
      assert e.InsertReport? || t.reports == s.reports;
    }
  }

  lemma ActiveOneMore(takedowns: map<Id, Takedown>, id: Id, t: Takedown)
    requires id !in takedowns && Active(t)
    ensures forall owner :: |ActiveOf(takedowns[id := t], owner)| == |ActiveOf(takedowns, owner)| + B2N(owner == t.owner)
  {
    forall owner | true
      ensures |ActiveOf(takedowns[id := t], owner)| == |ActiveOf(takedowns, owner)| + B2N(owner == t.owner)
    {
      assert ActiveOf(takedowns[id := t], owner)
          == ActiveOf(takedowns, owner) + if owner == t.owner then {id} else {};
    }
  }

  lemma ActiveOneLess(takedowns: map<Id, Takedown>, id: Id, t: Takedown)
    requires id in takedowns && Active(takedowns[id]) && !Active(t) && t.owner == takedowns[id].owner
    ensures forall owner :: |ActiveOf(takedowns[id := t], owner)| == |ActiveOf(takedowns, owner)| - B2N(owner == t.owner)
  {
    forall owner | true
      ensures |ActiveOf(takedowns[id := t], owner)| == |ActiveOf(takedowns, owner)| - B2N(owner == t.owner)
    {
      assert ActiveOf(takedowns[id := t], owner)
          == ActiveOf(takedowns, owner) - if owner == t.owner then {id} else {};
    }
  }

  lemma OtherActsLeaveTakedowns(takedowns: map<Id, Takedown>, log: seq<Entry>, e: Entry)
    requires TakedownsLogged(takedowns, log) && !e.act.WithholdAct? && !e.act.LiftAct?
    ensures TakedownsLogged(takedowns, log + [e])
  {
    LogOneMore(log, e);
  }

  lemma WithholdIsLogged(takedowns: map<Id, Takedown>, log: seq<Entry>, e: Entry, id: Id, t: Takedown)
    requires TakedownsLogged(takedowns, log) && id !in takedowns && Active(t) && Says(e, WithholdAct, t.owner)
    ensures TakedownsLogged(takedowns[id := t], log + [e])
  {
    LogOneMore(log, e);
    ActiveOneMore(takedowns, id, t);
  }

  lemma LiftIsLogged(takedowns: map<Id, Takedown>, log: seq<Entry>, e: Entry, id: Id, t: Takedown)
    requires TakedownsLogged(takedowns, log) && id in takedowns && Active(takedowns[id]) && !Active(t)
    requires t.owner == takedowns[id].owner && Says(e, LiftAct, t.owner)
    ensures TakedownsLogged(takedowns[id := t], log + [e])
  {
    LogOneMore(log, e);
    ActiveOneLess(takedowns, id, t);
  }

  lemma StepLogsTakedowns(s: Db, e: Event)
    requires TakedownsLogged(s.takedowns, s.log)
    ensures TakedownsLogged(Step(s, e).takedowns, Step(s, e).log)
  {
    var t := Step(s, e);
    if t.log != s.log {
      var last := t.log[|s.log|];
      assert t.log == s.log + [last];
      if e.InsertTakedown? {
        WithholdIsLogged(s.takedowns, s.log, last, e.id, e.takedown);
      } else if e.Lift? {
        LiftIsLogged(s.takedowns, s.log, last, e.id, t.takedowns[e.id]);
      } else {
        OtherActsLeaveTakedowns(s.takedowns, s.log, last);
      }
    }
  }

  lemma NewReportNoted(reports: map<Id, Report>, takedowns: map<Id, Takedown>, notices: multiset<Notice>, id: Id, r: Report)
    requires NoticesAgree(reports, takedowns, notices) && id !in reports && r.status.Open?
    ensures NoticesAgree(reports[id := r], takedowns, notices + multiset{ReportReceived(r.reporter, id)})
  {
    forall n ensures Expected(reports[id := r], takedowns, n)
                     == Expected(reports, takedowns, n) + B2N(n == ReportReceived(r.reporter, id)) {}
  }

  lemma AnswerNoted(reports: map<Id, Report>, takedowns: map<Id, Takedown>, notices: multiset<Notice>, id: Id, r: Report)
    requires NoticesAgree(reports, takedowns, notices) && id in reports && reports[id].status.Open?
    requires r.reporter == reports[id].reporter && !r.status.Open?
    ensures NoticesAgree(reports[id := r], takedowns, notices + multiset{ReportResolved(r.reporter, id, r.status)})
  {
    forall n ensures Expected(reports[id := r], takedowns, n)
                     == Expected(reports, takedowns, n) + B2N(n == ReportResolved(r.reporter, id, r.status)) {}
  }

  lemma NewTakedownNoted(reports: map<Id, Report>, takedowns: map<Id, Takedown>, notices: multiset<Notice>, id: Id, t: Takedown)
    requires NoticesAgree(reports, takedowns, notices) && id !in takedowns && Active(t)
    ensures NoticesAgree(reports, takedowns[id := t], notices + multiset{ContentWithheld(t.owner, id)})
  {
    forall n ensures Expected(reports, takedowns[id := t], n)
                     == Expected(reports, takedowns, n) + B2N(n == ContentWithheld(t.owner, id)) {}
  }

  lemma LiftNoted(reports: map<Id, Report>, takedowns: map<Id, Takedown>, notices: multiset<Notice>, id: Id, t: Takedown)
    requires NoticesAgree(reports, takedowns, notices) && id in takedowns && Active(takedowns[id])
    requires !Active(t) && t.owner == takedowns[id].owner
    ensures NoticesAgree(reports, takedowns[id := t], notices + multiset{ContentRestored(t.owner, id)})
  {
    forall n ensures Expected(reports, takedowns[id := t], n)
                     == Expected(reports, takedowns, n) + B2N(n == ContentRestored(t.owner, id)) {}
  }

  lemma StepGivesNotice(s: Db, e: Event)
    requires NoticesAgree(s.reports, s.takedowns, s.notices)
    ensures NoticesAgree(Step(s, e).reports, Step(s, e).takedowns, Step(s, e).notices)
  {
    var t := Step(s, e);
    if t.reports != s.reports || t.takedowns != s.takedowns {
      match e
      case InsertReport(id, r) => NewReportNoted(s.reports, s.takedowns, s.notices, id, r);
      case InsertTakedown(id, row, _) => NewTakedownNoted(s.reports, s.takedowns, s.notices, id, row);
      case Lift(_, id, _, _) => LiftNoted(s.reports, s.takedowns, s.notices, id, t.takedowns[id]);
      case Resolve(_, id, outcome, _, now) => AnswerNoted(s.reports, s.takedowns, s.notices, id, t.reports[id]);
    } else {
      RowsThatStay(s, e);
    }
  }

  /** Every act that gives a notice changes a row. */
  lemma RowsThatStay(s: Db, e: Event)
    requires Step(s, e).reports == s.reports && Step(s, e).takedowns == s.takedowns
    ensures Step(s, e).notices == s.notices
  {
    var t := Step(s, e);
    match e
    case InsertReport(id, _) => assert id in t.reports ==> id in s.reports;
    case InsertTakedown(id, _, _) => assert id in t.takedowns ==> id in s.takedowns;
    case Lift(_, id, _, _) => assert id in s.takedowns ==> t.takedowns[id] == s.takedowns[id];
    case Resolve(_, id, _, _, _) => assert id in s.reports ==> t.reports[id] == s.reports[id];
    case _ =>
  }

  ghost predicate Sound(s: Db) {
    && TakedownRules(s.takedowns) && ReportRules(s.reports)
    && AccountsLogged(s.accounts, s.log) && TakedownsLogged(s.takedowns, s.log) && ReportsLogged(s.reports, s.log)
    && NoticesAgree(s.reports, s.takedowns, s.notices)
  }

  lemma StepIsSound(s: Db, e: Event)
    requires Sound(s)
    ensures Sound(Step(s, e))
  {
    StepMovesTables(s, e);
    MoveKeepsTakedownRules(s.takedowns, e, Step(s, e).takedowns);
    MoveKeepsReportRules(s.reports, e, Step(s, e).reports);
    StepLogsAccounts(s, e);
    StepLogsReports(s, e);
    StepLogsTakedowns(s, e);
    StepGivesNotice(s, e);
  }

  lemma {:induction false} RunIsSound(s: Db, events: seq<Event>)
    requires Sound(s)
    ensures Sound(Run(s, events))
    decreases events
  {
    if events != [] {
      StepIsSound(s, events[0]);
      RunIsSound(Step(s, events[0]), events[1..]);
    }
  }

  lemma EmptyIsSound()
    ensures Sound(Empty)
  {
    forall owner | true ensures ActiveOf(Empty.takedowns, owner) == {} {}
  }

  /** An order is obeyed within 3 hours of its coming and was at most 30 days old; a report's takedown
      has at most the 7 days the law gives, and nothing is withheld before it was asked for. */
  predicate OnTheClock(t: Takedown) {
    && t.receivedAt <= t.withheldAt
    && (if t.basis.OnReport? then
          t.receivedAt < t.due <= t.receivedAt + 7 * 24 * 60 * 60 * 1_000_000 && t.issuedBy == t.reference == None
        else
          && t.due == t.receivedAt + 3 * 60 * 60 * 1_000_000
          && t.withheldAt - t.receivedAt <= 30 * 24 * 60 * 60 * 1_000_000
          && t.issuedBy.Some? && 3 <= |t.issuedBy.value| <= 200
          && t.reference.Some? && 1 <= |t.reference.value| <= 200)
    && (t.liftedAt.Some? ==> t.liftedBy.Some? && t.withheldAt <= t.liftedAt.value)
  }

  /** Whatever is reported, withheld, lifted, suspended, restored and resolved, in any order: at
      most one active takedown names an item, each row meets its CHECKs, and the owner was told
      once that it was withheld and once, if it was, that it was lifted. */
  lemma TakedownsAreSound(events: seq<Event>, id: Id, other: Id)
    ensures var s := Run(Empty, events);
            && (id in s.takedowns ==>
                 && TakedownChecks(s.takedowns[id])
                 && OnTheClock(s.takedowns[id])
                 && s.notices[ContentWithheld(s.takedowns[id].owner, id)] == 1
                 && s.notices[ContentRestored(s.takedowns[id].owner, id)] == B2N(!Active(s.takedowns[id])))
            && (id in s.takedowns && other in s.takedowns && SameItem(s.takedowns[id], s.takedowns[other]) ==> id == other)
  {
    EmptyIsSound();
    RunIsSound(Empty, events);
  }

  /** And of reports: a reporter has at most one open about an item, each is due within 7 days of its
      filing, and one that is no longer open has the moment it was answered. */
  lemma ReportsAreSound(events: seq<Event>, id: Id, other: Id)
    ensures var s := Run(Empty, events);
            && (id in s.reports ==>
                 var r := s.reports[id];
                 && 0 < r.due - r.createdAt <= 7 * 24 * 60 * 60 * 1_000_000
                 && (r.status == Open <==> r.resolvedAt == None))
            && (id in s.reports && other in s.reports && id != other ==>
                 var a, b := s.reports[id], s.reports[other];
                 a.status == b.status == Open ==> a.reporter != b.reporter || a.subject != b.subject)
  {
    EmptyIsSound();
    RunIsSound(Empty, events);
    var s := Run(Empty, events);
    if id in s.reports && other in s.reports && SameReport(s.reports[id], s.reports[other]) {
      assert id == other;
    }
  }

  /** Replaying the admin log gives the state. */
  lemma LogTellsTheState(events: seq<Event>, id: Id)
    ensures var s := Run(Empty, events);
            && (id in s.accounts && !s.accounts[id].role.Admin? ==>
                 && Replay(s.log, id) == Some(s.accounts[id].suspendedAt.Some?)
                 && Acts(s.log, SuspendAct, id) - Acts(s.log, RestoreAct, id) == B2N(s.accounts[id].suspendedAt.Some?)
                 && (s.accounts[id].suspendedAt.Some? <==> s.accounts[id].reason.Some?))
            && Acts(s.log, WithholdAct, id) - Acts(s.log, LiftAct, id) == |ActiveOf(s.takedowns, id)|
            && (id in s.reports ==>
                 var r := s.reports[id];
                 && Resolves(s.log, id) == B2N(!r.status.Open?)
                 && s.notices[ReportReceived(r.reporter, id)] == 1
                 && s.notices[ReportResolved(r.reporter, id, Actioned)] == B2N(r.status.Actioned?)
                 && s.notices[ReportResolved(r.reporter, id, Dismissed)] == B2N(r.status.Dismissed?))
  {
    EmptyIsSound();
    RunIsSound(Empty, events);
    var s := Run(Empty, events);
    if id in s.accounts && !s.accounts[id].role.Admin? {
      AlternatingLogCounts(s.log, id);
    }
  }
}

/**
 Warning runs that overlap, abort or come with any clock (the transactions of _warn_batch in
 app/modules/admin/report_clock_service.py). A run locks the rows it takes and skips locked
 ones; what it marks and whom it tells become visible together at its commit, or never.
 */
module WarningRuns {
  import opened Wrappers
  import opened ReportClocks

  type Txn = nat
  type Account = nat

  datatype Notification = Notification(account: Account, report: nat, stage: Stage)

  /** A batch under way: its clock, its locked rows as read, and the active admins it found. */
  datatype Batch = Batch(now: int, rows: set<nat>, admins: Option<set<Account>>)

  /** `marks` counts each committed warning; `told` is whom the last one of it told. */
  datatype State = State(
    table: map<nat, Report>, batches: map<Txn, Batch>, admins: set<Account>,
    sent: multiset<Notification>, marks: multiset<(nat, Stage)>, told: map<(nat, Stage), set<Account>>)

  datatype Event =
    | File(report: Report)
    | Resolve(id: nat)
    | ChangeAdmins(admins: set<Account>)
    | Take(txn: Txn, now: int, rows: set<nat>)
    | ReadAdmins(txn: Txn)
    | Commit(txn: Txn)
    | Abort(txn: Txn)

  predicate Locked(s: State, id: nat) {
    exists txn :: txn in s.batches && id in s.batches[txn].rows
  }

  /** What one row's warning is, when batch `b` commits. */
  function MarkOf(s: State, b: Batch, id: nat): (nat, Stage)
    requires id in s.table
  {
    (id, StageAt(s.table[id], b.now))
  }

  function Marked(s: State, b: Batch): set<(nat, Stage)>
    requires b.rows <= s.table.Keys
  {
    set id | id in b.rows :: MarkOf(s, b, id)
  }

  /** One notification for each marked row and each admin the transaction read. */
  function News(s: State, b: Batch): set<Notification>
    requires b.rows <= s.table.Keys && b.admins.Some?
  {
    set id, a | id in b.rows && a in b.admins.value :: Notification(a, id, StageAt(s.table[id], b.now))
  }

  function CommitBatch(s: State, b: Batch): State
    requires b.rows <= s.table.Keys && b.admins.Some?
  {
    s.(table := map id | id in s.table :: if id in b.rows then Mark(s.table[id], b.now) else s.table[id],
       sent := s.sent + multiset(News(s, b)),
       marks := s.marks + multiset(Marked(s, b)),
       told := s.told + map mark | mark in Marked(s, b) :: b.admins.value)
  }

  /** One step. An event that cannot happen in `s` changes nothing: a locked row makes the
      resolver wait, a locked or unowed row is not taken. */
  function Step(s: State, e: Event): State {
    match e
    case File(report) =>
      if report.id in s.table || !report.open || report.soonAt.Some? || report.lateAt.Some? then s
      else s.(table := s.table[report.id := report])
    case Resolve(id) =>
      if id in s.table && !Locked(s, id) then s.(table := s.table[id := s.table[id].(open := false)]) else s
    case ChangeAdmins(admins) => s.(admins := admins)
    case Take(txn, now, rows) =>
      if txn !in s.batches && rows <= s.table.Keys
         && forall id :: id in rows ==> Owed(s.table[id], now) && !Locked(s, id)
      then s.(batches := s.batches[txn := Batch(now, rows, None)])
      else s
    case ReadAdmins(txn) =>
      if txn in s.batches && s.batches[txn].admins == None then
        s.(batches := s.batches[txn := s.batches[txn].(admins := Some(s.admins))])
      else s
    case Commit(txn) =>
      if txn in s.batches && s.batches[txn].admins.Some? && s.batches[txn].rows <= s.table.Keys then
        CommitBatch(s, s.batches[txn]).(batches := s.batches - {txn})
      else s
    case Abort(txn) => s.(batches := s.batches - {txn})
  }

  function Run(s: State, events: seq<Event>): State
    decreases events
  {
    if events == [] then s else Run(Step(s, events[0]), events[1..])
  }

  const Empty := State(map[], map[], {}, multiset{}, multiset{}, map[])

  // ---- what every step keeps ----------------------------------------------------------------------

  /** No row is locked twice, and a locked row still owes the warning it was taken for. */
  ghost predicate LocksHold(s: State) {
    && (forall txn, id :: txn in s.batches && id in s.batches[txn].rows ==>
         id in s.table && Owed(s.table[id], s.batches[txn].now))
    && (forall txn, other, id ::
         txn in s.batches && other in s.batches && id in s.batches[txn].rows && id in s.batches[other].rows
         ==> txn == other)
  }

  /** The row says of its warnings what was committed of them. */
  ghost predicate RowAgrees(s: State, id: nat)
    requires id in s.table
  {
    var r := s.table[id];
    && RowOk(r)
    && s.marks[(id, Overdue)] == (if r.lateAt.Some? then 1 else 0)
    && s.marks[(id, DueSoon)] <= 1
    && (s.marks[(id, DueSoon)] == 1 ==> r.soonAt.Some? && 0 <= r.due - r.soonAt.value <= 30 * 60 * 1_000_000)
    && (r.soonAt.Some? ==> s.marks[(id, DueSoon)] == 1 || r.lateAt == r.soonAt)
  }

  /** Each committed warning told each of the admins active in its transaction once, and
      nobody else. */
  ghost predicate SentAgrees(s: State) {
    && (forall mark :: mark in s.marks <==> mark in s.told)
    && (forall mark :: mark in s.marks ==> mark.0 in s.table)
    && (forall n :: s.sent[n] ==
         if (n.report, n.stage) in s.told && n.account in s.told[(n.report, n.stage)] then 1 else 0)
  }

  ghost predicate Sound(s: State) {
    && LocksHold(s)
    && (forall id :: id in s.table ==> id == s.table[id].id && RowAgrees(s, id))
    && SentAgrees(s)
  }

  lemma {:induction false} CommitKeepsRows(s: State, b: Batch)
    requires b.rows <= s.table.Keys && b.admins.Some?
    requires forall id :: id in s.table ==> id == s.table[id].id && RowAgrees(s, id)
    requires forall id :: id in b.rows ==> Owed(s.table[id], b.now)
    ensures var t := CommitBatch(s, b);
            forall id :: id in t.table ==> id == t.table[id].id && RowAgrees(t, id)
  {
    var t := CommitBatch(s, b);
    var marked := Marked(s, b);
    forall id | id in t.table ensures id == t.table[id].id && RowAgrees(t, id) {
      assert RowAgrees(s, id);
      assert forall stage :: (id, stage) in marked <==> id in b.rows && stage == StageAt(s.table[id], b.now);
      if id in b.rows {
        MarkSettles(s.table[id], b.now);
      }
    }
  }

  /** A commit marks nothing that was marked before. */
  lemma CommitMarksNew(s: State, b: Batch, id: nat)
    requires b.rows <= s.table.Keys && id in b.rows && RowAgrees(s, id) && Owed(s.table[id], b.now)
    ensures MarkOf(s, b, id) !in s.marks
  {
    MarkSettles(s.table[id], b.now);
  }

  lemma NewsAreMarks(s: State, b: Batch, n: Notification)
    requires b.rows <= s.table.Keys && b.admins.Some?
    ensures n in News(s, b) <==> (n.report, n.stage) in Marked(s, b) && n.account in b.admins.value
  {
    if (n.report, n.stage) in Marked(s, b) {
      var id :| id in b.rows && MarkOf(s, b, id) == (n.report, n.stage);
    }
  }

  /** What is sent of one notification after a commit. */
  lemma CommitSends(s: State, b: Batch, n: Notification)
    requires b.rows <= s.table.Keys && b.admins.Some? && SentAgrees(s)
    requires forall mark :: mark in Marked(s, b) ==> mark !in s.told
    ensures var t := CommitBatch(s, b);
            t.sent[n] == if (n.report, n.stage) in t.told && n.account in t.told[(n.report, n.stage)] then 1 else 0
  {
    NewsAreMarks(s, b, n);
    assert multiset(News(s, b))[n] == if n in News(s, b) then 1 else 0;
  }

  lemma CommitTells(s: State, b: Batch)
    requires b.rows <= s.table.Keys && b.admins.Some? && SentAgrees(s)
    ensures var t := CommitBatch(s, b);
            && (forall mark :: mark in t.marks <==> mark in t.told)
            && (forall mark :: mark in t.marks ==> mark.0 in t.table)
  {}

  lemma CommitKeepsSent(s: State, b: Batch)
    requires b.rows <= s.table.Keys && b.admins.Some? && SentAgrees(s)
    requires forall id :: id in s.table ==> RowAgrees(s, id)
    requires forall id :: id in b.rows ==> Owed(s.table[id], b.now)
    ensures SentAgrees(CommitBatch(s, b))
  {
    forall mark | mark in Marked(s, b) ensures mark !in s.told {
      var id :| id in b.rows && mark == MarkOf(s, b, id);
      CommitMarksNew(s, b, id);
    }
    CommitTells(s, b);
    forall n | true
      ensures var t := CommitBatch(s, b);
              t.sent[n] == if (n.report, n.stage) in t.told && n.account in t.told[(n.report, n.stage)] then 1 else 0
    {
      CommitSends(s, b, n);
    }
  }

  lemma {:induction false} CommitKeepsLocks(s: State, txn: Txn)
    requires LocksHold(s) && txn in s.batches && s.batches[txn].admins.Some?
    requires s.batches[txn].rows <= s.table.Keys
    ensures LocksHold(CommitBatch(s, s.batches[txn]).(batches := s.batches - {txn}))
  {
    var b := s.batches[txn];
    var t := CommitBatch(s, b).(batches := s.batches - {txn});
    forall other, id | other in t.batches && id in t.batches[other].rows
      ensures id in t.table && Owed(t.table[id], t.batches[other].now)
    {
      assert id !in b.rows;
      assert t.table[id] == s.table[id];
    }
  }

  lemma TakeKeepsLocks(s: State, txn: Txn, now: int, rows: set<nat>)
    requires LocksHold(s)
    ensures LocksHold(Step(s, Take(txn, now, rows)))
  {
    var t := Step(s, Take(txn, now, rows));
    if t != s {
      forall one, other, id | one in t.batches && other in t.batches
                              && id in t.batches[one].rows && id in t.batches[other].rows
        ensures one == other
      {
        assert one != txn ==> s.batches[one] == t.batches[one];
        assert other != txn ==> s.batches[other] == t.batches[other];
        if one != other && (one == txn || other == txn) {
          assert id in rows && Locked(s, id);
        }
      }
    }
  }

  lemma {:induction false} StepKeepsLocks(s: State, e: Event)
    requires LocksHold(s)
    ensures LocksHold(Step(s, e))
  {
    match e
    case Take(txn, now, rows) => TakeKeepsLocks(s, txn, now, rows);
    case Commit(txn) =>
      if Step(s, e) != s {
        CommitKeepsLocks(s, txn);
      }
    case _ =>
  }

  lemma {:induction false} StepIsSound(s: State, e: Event)
    requires Sound(s)
    ensures Sound(Step(s, e))
  {
    StepKeepsLocks(s, e);
    if e.Commit? && Step(s, e) != s {
      var b := s.batches[e.txn];
      CommitKeepsRows(s, b);
      CommitKeepsSent(s, b);
      var t, u := CommitBatch(s, b), Step(s, e);
      assert u.table == t.table && u.marks == t.marks && u.sent == t.sent && u.told == t.told;
      forall id | id in u.table ensures id == u.table[id].id && RowAgrees(u, id) {
        assert RowAgrees(t, id);
      }
    } else {
      OtherStepsKeepWarnings(s, e);
      SameWarningsAgree(s, Step(s, e));
    }
  }

  /** Only a commit says anything of a warning: other steps at most open or close a report. */
  ghost predicate SameWarnings(s: State, t: State) {
    && t.marks == s.marks && t.sent == s.sent && t.told == s.told
    && s.table.Keys <= t.table.Keys
    && (forall id :: id in t.table ==>
         if id in s.table then t.table[id] == s.table[id].(open := t.table[id].open)
         else t.table[id].id == id && t.table[id].soonAt == None && t.table[id].lateAt == None)
  }

  lemma OtherStepsKeepWarnings(s: State, e: Event)
    requires !e.Commit? || Step(s, e) == s
    requires forall id :: id in s.table ==> id == s.table[id].id
    ensures SameWarnings(s, Step(s, e))
  {}

  lemma SameWarningsAgree(s: State, t: State)
    requires Sound(s) && SameWarnings(s, t)
    ensures forall id :: id in t.table ==> id == t.table[id].id && RowAgrees(t, id)
    ensures SentAgrees(t)
  {
    forall id | id in t.table ensures id == t.table[id].id && RowAgrees(t, id) {
      if id in s.table {
        assert RowAgrees(s, id);
      } else {
        assert (id, DueSoon) !in s.marks && (id, Overdue) !in s.marks;
      }
    }
  }

  lemma {:induction false} RunIsSound(s: State, events: seq<Event>)
    requires Sound(s)
    ensures Sound(Run(s, events))
    decreases events
  {
    if events != [] {
      StepIsSound(s, events[0]);
      RunIsSound(Step(s, events[0]), events[1..]);
    }
  }

  /** After any interleaving of runs, with any clocks, however many abort: no report was warned
      about twice at one stage; an overdue warning was committed only past the deadline, for a
      report whose due-soon mark is set too; and the notifications are one for each admin active
      in the warning's own transaction, and none besides. */
  lemma WarnedAtMostOnce(events: seq<Event>, id: nat, stage: Stage, account: Account)
    ensures var s := Run(Empty, events);
            && s.marks[(id, stage)] <= 1
            && ((id, stage) in s.marks <==> (id, stage) in s.told)
            && (s.marks[(id, Overdue)] == 1 ==>
                id in s.table && s.table[id].soonAt.Some? && s.table[id].lateAt.Some?
                && s.table[id].lateAt.value > s.table[id].due)
            && (s.marks[(id, DueSoon)] == 1 ==>
                id in s.table && s.table[id].soonAt.Some?
                && 0 <= s.table[id].due - s.table[id].soonAt.value <= 30 * 60 * 1_000_000)
            && s.sent[Notification(account, id, stage)]
               == (if (id, stage) in s.marks && account in s.told[(id, stage)] then 1 else 0)
  {
    RunIsSound(Empty, events);
    var s := Run(Empty, events);
    if id in s.table {
      assert RowAgrees(s, id);
    } else {
      assert (id, DueSoon) !in s.marks && (id, Overdue) !in s.marks;
    }
    assert stage == DueSoon || stage == Overdue;
  }

  // ---- an answered report is left alone ------------------------------------------------------------

  /** Answered, and what is said of its warnings. */
  ghost predicate AnsweredAs(s: State, id: nat, r: Report, soon: nat, late: nat) {
    && LocksHold(s)
    && id in s.table && s.table[id] == r && !r.open
    && s.marks[(id, DueSoon)] == soon && s.marks[(id, Overdue)] == late
  }

  lemma CommitLeavesAnswered(s: State, txn: Txn, id: nat, r: Report, soon: nat, late: nat)
    requires AnsweredAs(s, id, r, soon, late)
    requires txn in s.batches && s.batches[txn].admins.Some? && s.batches[txn].rows <= s.table.Keys
    ensures var t := CommitBatch(s, s.batches[txn]);
            t.table[id] == r && t.marks[(id, DueSoon)] == soon && t.marks[(id, Overdue)] == late
  {
    var b := s.batches[txn];
    assert id !in b.rows;
    forall stage ensures (id, stage) !in Marked(s, b) {}
    assert multiset(Marked(s, b))[(id, DueSoon)] == 0 && multiset(Marked(s, b))[(id, Overdue)] == 0;
  }

  lemma StepLeavesAnswered(s: State, e: Event, id: nat, r: Report, soon: nat, late: nat)
    requires AnsweredAs(s, id, r, soon, late)
    ensures AnsweredAs(Step(s, e), id, r, soon, late)
  {
    StepKeepsLocks(s, e);
    if e.Commit? && Step(s, e) != s {
      CommitLeavesAnswered(s, e.txn, id, r, soon, late);
    }
  }

  lemma {:induction false} RunLeavesAnswered(s: State, events: seq<Event>, id: nat, r: Report, soon: nat, late: nat)
    requires AnsweredAs(s, id, r, soon, late)
    ensures AnsweredAs(Run(s, events), id, r, soon, late)
    decreases events
  {
    if events != [] {
      StepLeavesAnswered(s, events[0], id, r, soon, late);
      RunLeavesAnswered(Step(s, events[0]), events[1..], id, r, soon, late);
    }
  }

  /** An answered report is never warned about again, not even by a run that was under way: its row
      and the count of its warnings stay as they were, whatever comes later. */
  lemma AnsweredIsNeverWarned(events: seq<Event>, later: seq<Event>, id: nat, stage: Stage)
    requires id in Run(Empty, events).table && !Run(Empty, events).table[id].open
    ensures var s, t := Run(Empty, events), Run(Run(Empty, events), later);
            && id in t.table && t.table[id] == s.table[id]
            && t.marks[(id, stage)] == s.marks[(id, stage)]
  {
    var s := Run(Empty, events);
    RunIsSound(Empty, events);
    RunLeavesAnswered(s, later, id, s.table[id], s.marks[(id, DueSoon)], s.marks[(id, Overdue)]);
    assert stage == DueSoon || stage == Overdue;
  }

  // ---- whom a warning told -------------------------------------------------------------------------

  lemma {:induction false} RunSnoc(s: State, events: seq<Event>, e: Event)
    ensures Run(s, events + [e]) == Step(Run(s, events), e)
    decreases events
  {
    if events == [] {
      assert [] + [e] == [e] && [e][1..] == [];
    } else {
      assert (events + [e])[1..] == events[1..] + [e];
      RunSnoc(Step(s, events[0]), events[1..], e);
    }
  }

  /** The state before event number `k`. */
  function At(events: seq<Event>, k: nat): State
    requires k <= |events|
  {
    Run(Empty, events[..k])
  }

  lemma AtNext(events: seq<Event>, k: nat)
    requires k < |events|
    ensures At(events, k + 1) == Step(At(events, k), events[k])
  {
    assert events[..k + 1] == events[..k] + [events[k]];
    RunSnoc(Empty, events[..k], events[k]);
  }

  /** Event number `n` is the read of the admins of the transaction that is open, with them, up to
      number `m`. */
  ghost predicate ReadBy(events: seq<Event>, n: nat, m: nat, txn: Txn, admins: set<Account>)
    requires n < m <= |events|
  {
    && events[n] == ReadAdmins(txn) && admins == At(events, n).admins
    && forall k :: n < k <= m ==> HasAdmins(At(events, k), txn, admins)
  }

  predicate HasAdmins(s: State, txn: Txn, admins: set<Account>) {
    txn in s.batches && s.batches[txn].admins == Some(admins)
  }

  lemma StepGivesAdmins(s: State, e: Event, txn: Txn, admins: set<Account>)
    requires HasAdmins(Step(s, e), txn, admins)
    ensures HasAdmins(s, txn, admins) || (e == ReadAdmins(txn) && admins == s.admins)
  {}

  lemma {:induction false} AdminsWereRead(events: seq<Event>, m: nat, txn: Txn, admins: set<Account>) returns (n: nat)
    requires m <= |events| && HasAdmins(At(events, m), txn, admins)
    ensures n < m && ReadBy(events, n, m, txn, admins)
    decreases m
  {
    assert m > 0 by { assert events[..0] == []; }
    AtNext(events, m - 1);
    StepGivesAdmins(At(events, m - 1), events[m - 1], txn, admins);
    if HasAdmins(At(events, m - 1), txn, admins) {
      n := AdminsWereRead(events, m - 1, txn, admins);
    } else {
      n := m - 1;
    }
  }

  /** The commit of `txn`, event number `m`, made this mark. */
  ghost predicate CommittedBy(events: seq<Event>, m: nat, txn: Txn, mark: (nat, Stage))
    requires m < |events|
  {
    var s := At(events, m);
    && events[m] == Commit(txn) && txn in s.batches && mark.0 in s.batches[txn].rows && mark.0 in s.table
    && mark == MarkOf(s, s.batches[txn], mark.0)
  }

  lemma StepTells(s: State, e: Event, mark: (nat, Stage))
    requires mark in Step(s, e).told
    ensures (mark in s.told && s.told[mark] == Step(s, e).told[mark])
            || (e.Commit? && HasAdmins(s, e.txn, Step(s, e).told[mark])
                && mark.0 in s.batches[e.txn].rows && mark.0 in s.table && mark == MarkOf(s, s.batches[e.txn], mark.0))
  {}

  /** Whom a committed warning told: the admins active when its own transaction read them. */
  lemma {:induction false} ToldTheAdminsOfItsTransaction(events: seq<Event>, k: nat, mark: (nat, Stage))
      returns (n: nat, m: nat, txn: Txn)
    requires k <= |events| && mark in At(events, k).told
    ensures n < m < k && CommittedBy(events, m, txn, mark) && ReadBy(events, n, m, txn, At(events, k).told[mark])
    decreases k
  {
    assert k > 0 by { assert events[..0] == []; }
    AtNext(events, k - 1);
    var s, e := At(events, k - 1), events[k - 1];
    StepTells(s, e, mark);
    if mark in s.told && s.told[mark] == At(events, k).told[mark] {
      n, m, txn := ToldTheAdminsOfItsTransaction(events, k - 1, mark);
    } else {
      m, txn := k - 1, e.txn;
      n := AdminsWereRead(events, m, txn, At(events, k).told[mark]);
    }
  }
}

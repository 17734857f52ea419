/**
 The freeze of D-092: how many requests it takes. (What the limit on requests in flight makes
 of it, with everybody else who draws on the pool, is BusyProcess.) A request takes a worker
 thread for its sign-in check, waits in that thread for a database connection, gives the thread
 back but keeps the connection, and then waits for a thread to run its endpoint.
 */
module PoolFreeze {

  datatype Stage =
    | NeedsThread        // nothing held: the sign-in check has not run
    | NeedsConnection    // a thread held, waiting in it for a connection
    | NeedsThreadAgain   // a connection held, waiting for a thread
    | Working            // both held
    | Done

  function ThreadsHeld(requests: seq<Stage>): (n: nat) {
    if requests == [] then 0
    else ThreadsHeld(requests[..|requests| - 1]) + OneThread(requests[|requests| - 1])
  }

  function OneThread(stage: Stage): nat {
    if stage.NeedsConnection? || stage.Working? then 1 else 0
  }

  function ConnectionsHeld(requests: seq<Stage>): (n: nat) {
    if requests == [] then 0
    else ConnectionsHeld(requests[..|requests| - 1]) + OneConnection(requests[|requests| - 1])
  }

  function OneConnection(stage: Stage): nat {
    if stage.NeedsThreadAgain? || stage.Working? then 1 else 0
  }

  function Unfinished(requests: seq<Stage>): (n: nat) {
    if requests == [] then 0
    else Unfinished(requests[..|requests| - 1]) + (if requests[|requests| - 1].Done? then 0 else 1)
  }

  /** How many stages are still to come. */
  function StagesLeft(stage: Stage): nat {
    match stage
    case NeedsThread => 4
    case NeedsConnection => 3
    case NeedsThreadAgain => 2
    case Working => 1
    case Done => 0
  }

  datatype Pool = Pool(threads: nat, connections: nat)

  predicate CanStep(pool: Pool, requests: seq<Stage>, i: nat)
    requires i < |requests|
  {
    match requests[i]
    case NeedsThread => ThreadsHeld(requests) < pool.threads
    case NeedsConnection => ConnectionsHeld(requests) < pool.connections
    case NeedsThreadAgain => ThreadsHeld(requests) < pool.threads
    case Working => true
    case Done => false
  }

  function Next(stage: Stage): Stage {
    match stage
    case NeedsThread => NeedsConnection
    case NeedsConnection => NeedsThreadAgain
    case NeedsThreadAgain => Working
    case Working => Done
    case Done => Done
  }

  datatype Event = Enter | Go(i: nat)

  function Step(pool: Pool, requests: seq<Stage>, e: Event): seq<Stage> {
    match e
    case Enter => requests + [NeedsThread]
    case Go(i) =>
      if i < |requests| && CanStep(pool, requests, i) then requests[i := Next(requests[i])] else requests
  }

  function Run(pool: Pool, requests: seq<Stage>, events: seq<Event>): seq<Stage>
    decreases events
  {
    if events == [] then requests else Run(pool, Step(pool, requests, events[0]), events[1..])
  }

  ghost predicate WithinPool(pool: Pool, requests: seq<Stage>) {
    ThreadsHeld(requests) <= pool.threads && ConnectionsHeld(requests) <= pool.connections
  }

  /** What changing one request's stage does to each total. */
  lemma {:induction false} OneMoves(requests: seq<Stage>, i: nat, stage: Stage)
    requires i < |requests|
    ensures ThreadsHeld(requests[i := stage]) == ThreadsHeld(requests) - OneThread(requests[i]) + OneThread(stage)
    ensures ConnectionsHeld(requests[i := stage])
            == ConnectionsHeld(requests) - OneConnection(requests[i]) + OneConnection(stage)
    decreases |requests|
  {
    var last := |requests| - 1;
    var after := requests[i := stage];
    if i < last {
      OneMoves(requests[..last], i, stage);
      assert after[..last] == requests[..last][i := stage];
    } else {
      assert after[..last] == requests[..last];
    }
  }

  lemma StepStaysWithinPool(pool: Pool, requests: seq<Stage>, e: Event)
    requires WithinPool(pool, requests)
    ensures WithinPool(pool, Step(pool, requests, e))
  {
    match e
    case Enter => assert (requests + [NeedsThread])[..|requests|] == requests;
    case Go(i) =>
      if i < |requests| && CanStep(pool, requests, i) {
        OneMoves(requests, i, Next(requests[i]));
      }
  }

  lemma {:induction false} RunStaysWithinPool(pool: Pool, requests: seq<Stage>, events: seq<Event>)
    requires WithinPool(pool, requests)
    ensures WithinPool(pool, Run(pool, requests, events))
    decreases events
  {
    if events != [] {
      StepStaysWithinPool(pool, requests, events[0]);
      RunStaysWithinPool(pool, Step(pool, requests, events[0]), events[1..]);
    }
  }

  // ---- when nothing can move --------------------------------------------------------------

  /** Work left, and nobody can take a step: the freeze. */
  ghost predicate Frozen(pool: Pool, requests: seq<Stage>) {
    && Unfinished(requests) > 0
    && forall i :: 0 <= i < |requests| ==> !CanStep(pool, requests, i)
  }

  lemma {:induction false} Totals(requests: seq<Stage>)
    requires forall i :: 0 <= i < |requests| ==> !requests[i].Working?
    ensures Unfinished(requests) >= ThreadsHeld(requests) + ConnectionsHeld(requests)
    ensures (forall i :: 0 <= i < |requests| ==> !requests[i].NeedsConnection?) ==> ThreadsHeld(requests) == 0
    ensures (forall i :: 0 <= i < |requests| ==> !requests[i].NeedsThreadAgain?) ==> ConnectionsHeld(requests) == 0
    ensures (forall i :: 0 <= i < |requests| ==> requests[i].Done?) ==> Unfinished(requests) == 0
    decreases |requests|
  {
    if requests != [] {
      Totals(requests[..|requests| - 1]);
    }
  }

  /** A freeze takes every thread and every connection: at least as many requests as both
      together. */
  lemma FreezeNeedsBoth(pool: Pool, requests: seq<Stage>)
    requires pool.threads >= 1 && pool.connections >= 1
    requires Frozen(pool, requests)
    ensures Unfinished(requests) >= pool.threads + pool.connections
  {
    forall i | 0 <= i < |requests| ensures !requests[i].Working? {
      assert !CanStep(pool, requests, i);
    }
    Totals(requests);
    if waiter :| 0 <= waiter < |requests| && requests[waiter].NeedsConnection? {
      assert !CanStep(pool, requests, waiter);
      var holder :| 0 <= holder < |requests| && requests[holder].NeedsThreadAgain?;
      assert !CanStep(pool, requests, holder);
    } else {
      forall i | 0 <= i < |requests| ensures requests[i].Done? {
        assert !CanStep(pool, requests, i);
      }
    }
  }

  /** Nobody waits for a connection while no more requests are inside than connections. */
  lemma {:induction false} ConnectionForEveryone(requests: seq<Stage>, i: nat)
    requires i < |requests| && requests[i].NeedsConnection?
    ensures ConnectionsHeld(requests) < Unfinished(requests)
    decreases |requests|
  {
    var last := |requests| - 1;
    ConnectionsAtMost(requests[..last]);
    if i < last {
      ConnectionForEveryone(requests[..last], i);
    }
  }

  lemma {:induction false} ConnectionsAtMost(requests: seq<Stage>)
    ensures ConnectionsHeld(requests) <= Unfinished(requests)
    decreases |requests|
  {
    if requests != [] {
      ConnectionsAtMost(requests[..|requests| - 1]);
    }
  }

  // ---- the other direction: how the freeze forms -------------------------------------------------

  function Row(again: nat, holding: nat, waiting: nat): seq<Stage> {
    seq(again, _ => NeedsThreadAgain) + seq(holding, _ => NeedsConnection) + seq(waiting, _ => NeedsThread)
  }

  /** `again` sign-in checks one after another, then `holding` sign-in checks begun. */
  function FreezeSteps(again: nat, holding: nat): seq<Event> {
    if holding > 0 then FreezeSteps(again, holding - 1) + [Go(again + holding - 1)]
    else if again > 0 then FreezeSteps(again - 1, 0) + [Go(again - 1), Go(again - 1)]
    else []
  }

  lemma {:induction false} RunConcat(pool: Pool, requests: seq<Stage>, a: seq<Event>, b: seq<Event>)
    ensures Run(pool, requests, a + b) == Run(pool, Run(pool, requests, a), b)
    decreases a
  {
    if a == [] {
      assert a + b == b;
    } else {
      assert (a + b)[0] == a[0] && (a + b)[1..] == a[1..] + b;
      RunConcat(pool, Step(pool, requests, a[0]), a[1..], b);
    }
  }

  lemma {:induction false} RowTotals(again: nat, holding: nat, waiting: nat)
    ensures ThreadsHeld(Row(again, holding, waiting)) == holding
    ensures ConnectionsHeld(Row(again, holding, waiting)) == again
    ensures Unfinished(Row(again, holding, waiting)) == again + holding + waiting
    decreases again + holding + waiting
  {
    var row := Row(again, holding, waiting);
    if row != [] {
      var front := row[..|row| - 1];
      if waiting > 0 {
        assert front == Row(again, holding, waiting - 1);
        RowTotals(again, holding, waiting - 1);
      } else if holding > 0 {
        assert front == Row(again, holding - 1, 0);
        RowTotals(again, holding - 1, 0);
      } else {
        assert front == Row(again - 1, 0, 0);
        RowTotals(again - 1, 0, 0);
      }
    }
  }

  lemma HoldOneMore(pool: Pool, again: nat, holding: nat, waiting: nat)
    requires holding < pool.threads && waiting >= 1
    ensures Step(pool, Row(again, holding, waiting), Go(again + holding)) == Row(again, holding + 1, waiting - 1)
  {
    RowTotals(again, holding, waiting);
    assert Row(again, holding, waiting)[again + holding] == NeedsThread;
  }

  lemma SignInOneMore(pool: Pool, again: nat, waiting: nat)
    requires again < pool.connections
    ensures Step(pool, Row(again, 1, waiting), Go(again)) == Row(again + 1, 0, waiting)
  {
    RowTotals(again, 1, waiting);
    assert Row(again, 1, waiting)[again] == NeedsConnection;
  }

  lemma RunOneOrTwo(pool: Pool, requests: seq<Stage>, e: Event)
    ensures Run(pool, requests, [e]) == Step(pool, requests, e)
    ensures Run(pool, requests, [e, e]) == Step(pool, Step(pool, requests, e), e)
  {
    assert [e, e][1..] == [e] && [e][1..] == [];
    assert Run(pool, Step(pool, requests, e), [e]) == Step(pool, Step(pool, requests, e), e);
  }

  lemma ThenHold(pool: Pool, start: seq<Stage>, events: seq<Event>, again: nat, holding: nat, waiting: nat)
    requires holding < pool.threads && waiting >= 1
    requires Run(pool, start, events) == Row(again, holding, waiting)
    ensures Run(pool, start, events + [Go(again + holding)]) == Row(again, holding + 1, waiting - 1)
  {
    RunConcat(pool, start, events, [Go(again + holding)]);
    RunOneOrTwo(pool, Row(again, holding, waiting), Go(again + holding));
    HoldOneMore(pool, again, holding, waiting);
  }

  lemma ThenSignIn(pool: Pool, start: seq<Stage>, events: seq<Event>, again: nat, waiting: nat)
    requires again < pool.connections && 1 <= pool.threads && waiting >= 1
    requires Run(pool, start, events) == Row(again, 0, waiting)
    ensures Run(pool, start, events + [Go(again), Go(again)]) == Row(again + 1, 0, waiting - 1)
  {
    RunConcat(pool, start, events, [Go(again), Go(again)]);
    RunOneOrTwo(pool, Row(again, 0, waiting), Go(again));
    HoldOneMore(pool, again, 0, waiting);
    SignInOneMore(pool, again, waiting - 1);
  }

  lemma {:induction false} SignInsForm(pool: Pool, total: nat, start: seq<Stage>, again: nat)
    requires again <= pool.connections && again <= total && 1 <= pool.threads
    requires Run(pool, start, []) == Row(0, 0, total)
    ensures Run(pool, start, FreezeSteps(again, 0)) == Row(again, 0, total - again)
  {
    if again > 0 {
      SignInsForm(pool, total, start, again - 1);
      ThenSignIn(pool, start, FreezeSteps(again - 1, 0), again - 1, total - again + 1);
    }
  }

  lemma {:induction false} HoldsForm(pool: Pool, waiting: nat, start: seq<Stage>, again: nat, holding: nat)
    requires holding <= pool.threads && holding <= waiting
    requires Run(pool, start, FreezeSteps(again, 0)) == Row(again, 0, waiting)
    ensures Run(pool, start, FreezeSteps(again, holding)) == Row(again, holding, waiting - holding)
  {
    if holding > 0 {
      HoldsForm(pool, waiting, start, again, holding - 1);
      ThenHold(pool, start, FreezeSteps(again, holding - 1), again, holding - 1, waiting - holding + 1);
    }
  }

  lemma RowForms(pool: Pool, total: nat, again: nat, holding: nat)
    requires again <= pool.connections && holding <= pool.threads && 1 <= pool.threads && again + holding <= total
    ensures Run(pool, Row(0, 0, total), FreezeSteps(again, holding)) == Row(again, holding, total - again - holding)
  {
    SignInsForm(pool, total, Row(0, 0, total), again);
    HoldsForm(pool, total - again, Row(0, 0, total), again, holding);
  }

  ghost predicate GoOnly(events: seq<Event>) {
    forall n :: 0 <= n < |events| ==> events[n].Go?
  }

  lemma {:induction false} FreezeStepsAreSteps(again: nat, holding: nat)
    ensures GoOnly(FreezeSteps(again, holding))
    decreases again + holding
  {
    if holding > 0 {
      FreezeStepsAreSteps(again, holding - 1);
    } else if again > 0 {
      FreezeStepsAreSteps(again - 1, 0);
    }
  }

  lemma {:induction false} NobodyEnters(pool: Pool, requests: seq<Stage>, events: seq<Event>)
    requires GoOnly(events)
    ensures |Run(pool, requests, events)| == |requests|
    decreases events
  {
    if events != [] {
      NobodyEnters(pool, Step(pool, requests, events[0]), events[1..]);
    }
  }

  lemma {:induction false} UnfinishedAtMost(requests: seq<Stage>)
    ensures Unfinished(requests) <= |requests|
    decreases |requests|
  {
    if requests != [] {
      UnfinishedAtMost(requests[..|requests| - 1]);
    }
  }

  /** Some order of steps of `total` requests ends in a freeze. */
  ghost predicate CanFreeze(pool: Pool, total: nat) {
    exists events :: GoOnly(events) && Frozen(pool, Run(pool, Row(0, 0, total), events))
  }

  /** Requests let in at once can freeze the process exactly when there are at least as many
      as threads and connections together. */
  lemma FreezeThreshold(pool: Pool, total: nat)
    requires pool.threads >= 1 && pool.connections >= 1
    ensures CanFreeze(pool, total) <==> total >= pool.threads + pool.connections
  {
    if total >= pool.threads + pool.connections {
      var waiting := total - pool.connections - pool.threads;
      var events := FreezeSteps(pool.connections, pool.threads);
      var row := Row(pool.connections, pool.threads, waiting);
      RowForms(pool, total, pool.connections, pool.threads);
      RowTotals(pool.connections, pool.threads, waiting);
      FreezeStepsAreSteps(pool.connections, pool.threads);
      assert Frozen(pool, row);
      assert GoOnly(events) && Frozen(pool, Run(pool, Row(0, 0, total), events));
    }
    if CanFreeze(pool, total) {
      var events :| GoOnly(events) && Frozen(pool, Run(pool, Row(0, 0, total), events));
      NobodyEnters(pool, Row(0, 0, total), events);
      UnfinishedAtMost(Run(pool, Row(0, 0, total), events));
      FreezeNeedsBoth(pool, Run(pool, Row(0, 0, total), events));
    }
  }

  /** Somebody holds a thread and waits in it for a connection that is not there. */
  ghost predicate SomebodyWaits(pool: Pool, requests: seq<Stage>) {
    exists i :: 0 <= i < |requests| && requests[i].NeedsConnection? && !CanStep(pool, requests, i)
  }

  ghost predicate CanMakeSomebodyWait(pool: Pool, total: nat) {
    exists events :: GoOnly(events) && SomebodyWaits(pool, Run(pool, Row(0, 0, total), events))
  }

  /** Requests let in at once can make one of them wait for a connection exactly when there
      are more of them than connections. */
  lemma WaitThreshold(pool: Pool, total: nat)
    requires pool.threads >= 1
    ensures CanMakeSomebodyWait(pool, total) <==> total > pool.connections
  {
    if total > pool.connections {
      var waiting := total - pool.connections - 1;
      var events := FreezeSteps(pool.connections, 1);
      RowForms(pool, total, pool.connections, 1);
      RowTotals(pool.connections, 1, waiting);
      FreezeStepsAreSteps(pool.connections, 1);
      var row := Run(pool, Row(0, 0, total), events);
      assert row[pool.connections].NeedsConnection? && !CanStep(pool, row, pool.connections);
      assert GoOnly(events) && SomebodyWaits(pool, row);
    }
    if CanMakeSomebodyWait(pool, total) {
      var events :| GoOnly(events) && SomebodyWaits(pool, Run(pool, Row(0, 0, total), events));
      var row := Run(pool, Row(0, 0, total), events);
      var i :| 0 <= i < |row| && row[i].NeedsConnection? && !CanStep(pool, row, i);
      NobodyEnters(pool, Row(0, 0, total), events);
      UnfinishedAtMost(row);
      ConnectionForEveryone(row, i);
    }
  }
}

/**
 Letting in at most so many requests at once (app/core/load_shedding.py). One process is one
 event loop, so what runs between two awaits is one atomic step; everything else can happen
 at an await. Times are whole milliseconds.
 */
module LoadShedding {
  import opened Wrappers

  type Id = nat

  /** Where one request's coroutine is. `Waiting` is asleep between two looks. */
  datatype Phase =
    | Waiting(deadline: int)
    | Inside            // counted: the app is running for it
    | Uncounted         // a health check, or not http: the app is running for it
    | Shed              // answered 503
    | Gone

  datatype State = State(max: nat, queue: nat, now: int, inFlight: int, tasks: map<Id, Phase>)

  datatype Ending = Returned | Raised | Cancelled

  datatype Event =
    | Arrive(id: Id, counted: bool)
    | Poll(id: Id)                     // a sleep is over
    | CancelSleep(id: Id)
    | Leave(id: Id, how: Ending)       // the app returns, raises or is cancelled
    | Tick(millis: nat)

  function Initial(max: nat, queue: nat): State {
    State(max, queue, 0, 0, map[])
  }

  function Put(s: State, id: Id, phase: Phase): State {
    s.(tasks := s.tasks[id := phase])
  }

  /** One look at the counter, up to the next await. */
  function Look(s: State, id: Id, deadline: int): State {
    if s.inFlight >= s.max then
      if s.now >= deadline then Put(s, id, Shed) else Put(s, id, Waiting(deadline))
    else Put(s.(inFlight := s.inFlight + 1), id, Inside)
  }

  /** One step. An event that cannot happen in `s` changes nothing. */
  function Step(s: State, e: Event): State {
    match e
    case Arrive(id, counted) =>
      if id in s.tasks then s
      else if counted then Look(s, id, s.now + s.queue)
      else Put(s, id, Uncounted)
    case Poll(id) =>
      if id in s.tasks && s.tasks[id].Waiting? then Look(s, id, s.tasks[id].deadline) else s
    case CancelSleep(id) =>
      if id in s.tasks && s.tasks[id].Waiting? then Put(s, id, Gone) else s
    case Leave(id, how) =>
      if id in s.tasks && s.tasks[id].Inside? then Put(s.(inFlight := s.inFlight - 1), id, Gone)
      else if id in s.tasks && s.tasks[id].Uncounted? then Put(s, id, Gone)
      else s
    case Tick(millis) => s.(now := s.now + millis)
  }

  function Run(s: State, events: seq<Event>): State
    decreases events
  {
    if events == [] then s else Run(Step(s, events[0]), events[1..])
  }

  lemma {:induction false} RunConcat(s: State, a: seq<Event>, b: seq<Event>)
    ensures Run(s, a + b) == Run(Run(s, a), b)
    decreases a
  {
    if a == [] {
      assert a + b == b;
    } else {
      assert (a + b)[0] == a[0] && (a + b)[1..] == a[1..] + b;
      RunConcat(Step(s, a[0]), a[1..], b);
    }
  }

  // ---- the count is the number inside -------------------------------------------------------

  function InsideOf(tasks: map<Id, Phase>): set<Id> {
    set id | id in tasks && tasks[id].Inside?
  }

  ghost predicate Counted(s: State) {
    s.inFlight == |InsideOf(s.tasks)| && s.inFlight <= s.max
  }

  lemma CountMoves(tasks: map<Id, Phase>, id: Id, phase: Phase)
    ensures phase.Inside? && !(id in tasks && tasks[id].Inside?) ==>
              |InsideOf(tasks[id := phase])| == |InsideOf(tasks)| + 1
    ensures !phase.Inside? && id in tasks && tasks[id].Inside? ==>
              |InsideOf(tasks[id := phase])| == |InsideOf(tasks)| - 1
    ensures !phase.Inside? && !(id in tasks && tasks[id].Inside?) ==>
              |InsideOf(tasks[id := phase])| == |InsideOf(tasks)|
  {
    var before, after := InsideOf(tasks), InsideOf(tasks[id := phase]);
    if phase.Inside? {
      assert after == before + {id};
    } else {
      assert after == before - {id};
    }
  }

  lemma StepKeepsCount(s: State, e: Event)
    requires Counted(s)
    ensures Counted(Step(s, e)) && Step(s, e).max == s.max
  {
    if !e.Tick? && Step(s, e).tasks != s.tasks {
      CountMoves(s.tasks, e.id, Step(s, e).tasks[e.id]);
    }
  }

  /** At every suspension point, on normal, raising and cancelled paths alike, the counter is
      the number of requests inside the app, and lies between 0 and the limit. */
  lemma {:induction false} CountIsTheNumberInside(s: State, events: seq<Event>)
    requires Counted(s)
    ensures Counted(Run(s, events)) && 0 <= Run(s, events).inFlight <= s.max
    decreases events
  {
    if events != [] {
      StepKeepsCount(s, events[0]);
      CountIsTheNumberInside(Step(s, events[0]), events[1..]);
    }
  }

  /** A look by a request without a place: it is let in exactly when a place is free, shed
      exactly when none is and its time is up, and otherwise waits on; and nobody else moves. */
  lemma WhatALookDecides(s: State, id: Id)
    requires Counted(s) && id in s.tasks && s.tasks[id].Waiting?
    ensures var t := Step(s, Poll(id));
            && (t.tasks[id].Inside? <==> |InsideOf(s.tasks)| < s.max)
            && (t.tasks[id].Shed? <==> |InsideOf(s.tasks)| == s.max && s.now >= s.tasks[id].deadline)
            && (t.tasks[id].Waiting? <==> |InsideOf(s.tasks)| == s.max && s.now < s.tasks[id].deadline)
            && forall other :: other in s.tasks && other != id ==> other in t.tasks && t.tasks[other] == s.tasks[other]
  {}

  /** Every deadline is at most the queue time ahead. */
  ghost predicate DeadlinesNear(s: State) {
    forall id :: id in s.tasks && s.tasks[id].Waiting? ==> s.tasks[id].deadline <= s.now + s.queue
  }

  lemma {:induction false} DeadlinesStayNear(s: State, events: seq<Event>)
    requires DeadlinesNear(s)
    ensures DeadlinesNear(Run(s, events))
    decreases events
  {
    if events != [] {
      var t := Step(s, events[0]);
      assert DeadlinesNear(t) by {
        forall id | id in t.tasks && t.tasks[id].Waiting? ensures t.tasks[id].deadline <= t.now + t.queue {
          if id in s.tasks && s.tasks[id].Waiting? {
          } else {
            assert events[0].Arrive?;
          }
        }
      }
      DeadlinesStayNear(t, events[1..]);
    }
  }

  /** A request that sleeps keeps the deadline it came with. */
  lemma {:induction false} KeepsItsDeadline(s: State, events: seq<Event>, id: Id, deadline: int)
    requires id in s.tasks && (s.tasks[id].Waiting? ==> s.tasks[id].deadline == deadline)
    ensures id in Run(s, events).tasks
    ensures Run(s, events).tasks[id].Waiting? ==> Run(s, events).tasks[id].deadline == deadline
    decreases events
  {
    if events != [] {
      KeepsItsDeadline(Step(s, events[0]), events[1..], id, deadline);
    }
  }

  /** Nobody waits past the queue time: whatever happened since a request came, if it is still
      asleep when that time is up, its next look ends the wait, with a place if one is free and
      with a 503 if none is. */
  lemma WaitEndsAtTheDeadline(s: State, id: Id, events: seq<Event>)
    requires Counted(s) && id !in s.tasks
    ensures var t := Run(Step(s, Arrive(id, true)), events);
            && id in t.tasks
            && (t.tasks[id].Waiting? && t.now >= s.now + s.queue ==>
                 Step(t, Poll(id)).tasks[id] == if |InsideOf(t.tasks)| < s.max then Inside else Shed)
  {
    var came := Step(s, Arrive(id, true));
    StepKeepsCount(s, Arrive(id, true));
    KeepsItsDeadline(came, events, id, s.now + s.queue);
    CountIsTheNumberInside(came, events);
    RunKeepsSettings(came, events);
  }

  /** What became of a request that would be out of time at `deadline`: it sleeps until exactly
      that moment, and only past it can it have been refused. */
  predicate ShedOnlyPast(s: State, id: Id, deadline: int) {
    && id in s.tasks
    && !s.tasks[id].Uncounted?
    && (s.tasks[id].Waiting? ==> s.tasks[id].deadline == deadline)
    && (s.tasks[id].Shed? ==> s.now >= deadline)
  }

  lemma {:induction false} StaysShedOnlyPast(s: State, events: seq<Event>, id: Id, deadline: int)
    requires ShedOnlyPast(s, id, deadline)
    ensures ShedOnlyPast(Run(s, events), id, deadline)
    decreases events
  {
    if events != [] {
      assert ShedOnlyPast(Step(s, events[0]), id, deadline);
      StaysShedOnlyPast(Step(s, events[0]), events[1..], id, deadline);
    }
  }

  /** Nobody is shed early: whatever happens after a request comes, it is refused only once its
      whole queue time is over, and nobody who finds a free place is made to wait. */
  lemma NobodyIsShedEarly(s: State, id: Id, events: seq<Event>)
    requires Counted(s) && id !in s.tasks
    ensures var came := Step(s, Arrive(id, true));
            var t := Run(came, events);
            && (came.tasks[id].Inside? <==> |InsideOf(s.tasks)| < s.max)
            && (came.tasks[id].Shed? <==> |InsideOf(s.tasks)| == s.max && s.queue == 0)
            && id in t.tasks
            && (t.tasks[id].Shed? ==> t.now >= s.now + s.queue)
  {
    StaysShedOnlyPast(Step(s, Arrive(id, true)), events, id, s.now + s.queue);
  }

  /** A health check is never held, never refused and never counted, however full it is. */
  lemma {:induction false} ExemptIsNeverHeld(s: State, id: Id, events: seq<Event>)
    requires id !in s.tasks
    ensures var came := Step(s, Arrive(id, false));
            && came.inFlight == s.inFlight
            && id in Run(came, events).tasks
            && Run(came, events).tasks[id] in {Uncounted, Gone}
  {
    StaysUncounted(Step(s, Arrive(id, false)), events, id);
  }

  lemma {:induction false} StaysUncounted(s: State, events: seq<Event>, id: Id)
    requires id in s.tasks && s.tasks[id] in {Uncounted, Gone}
    ensures id in Run(s, events).tasks && Run(s, events).tasks[id] in {Uncounted, Gone}
    decreases events
  {
    if events != [] {
      StaysUncounted(Step(s, events[0]), events[1..], id);
    }
  }

  lemma {:induction false} RunKeepsSettings(s: State, events: seq<Event>)
    ensures Run(s, events).max == s.max && Run(s, events).queue == s.queue
    decreases events
  {
    if events != [] {
      RunKeepsSettings(Step(s, events[0]), events[1..]);
    }
  }

  // ---- the middleware as it is written --------------------------------------------------------

  predicate Others(events: seq<Event>, id: Id) {
    forall i :: 0 <= i < |events| ==> events[i].Tick? || events[i].id != id
  }

  lemma {:induction false} OthersLeaveMeAlone(s: State, events: seq<Event>, id: Id)
    requires Others(events, id) && id in s.tasks
    ensures id in Run(s, events).tasks && Run(s, events).tasks[id] == s.tasks[id]
    ensures Run(s, events).max == s.max && Run(s, events).queue == s.queue
    decreases events
  {
    if events != [] {
      assert id in Step(s, events[0]).tasks && Step(s, events[0]).tasks[id] == s.tasks[id];
      OthersLeaveMeAlone(Step(s, events[0]), events[1..], id);
    }
  }

  class LoadSheddingMiddleware {
    var process: State

    constructor (max: nat, queue: nat)
      ensures process == Initial(max, queue) && Counted(process)
    {
      process := Initial(max, queue);
    }

    method Meanwhile(others: seq<Event>)
      modifies this
      ensures process == Run(old(process), others)
    {
      process := Run(process, others);
    }

    /** _take_a_place: look, and sleep between looks; `sleeps[n]` is what everybody else does
        during the n-th sleep. None: still asleep when the story ends. */
    method TakeAPlace(id: Id, sleeps: seq<seq<Event>>) returns (took: Option<bool>, ghost schedule: seq<Event>)
      requires id !in process.tasks && forall n :: 0 <= n < |sleeps| ==> Others(sleeps[n], id)
      modifies this
      ensures process == Run(old(process), schedule)
      ensures id in process.tasks
      ensures match took
              case Some(true) => process.tasks[id].Inside?
              case Some(false) => process.tasks[id].Shed? && process.now >= old(process.now) + old(process.queue)
              case None => process.tasks[id] == Waiting(old(process.now) + old(process.queue))
      ensures old(process.inFlight) < old(process.max) ==> took == Some(true) && process.now == old(process.now)
    {
      var deadline := process.now + process.queue;
      schedule := [];
      var slept := 0;
      while process.inFlight >= process.max
        invariant 0 <= slept <= |sleeps|
        invariant slept == 0 ==> process == old(process) && schedule == []
        invariant slept > 0 ==> id in process.tasks && process.tasks[id] == Waiting(deadline)
        invariant old(process.inFlight) < old(process.max) ==> slept == 0
        invariant process == Run(old(process), schedule)
        decreases |sleeps| - slept
      {
        ghost var look := if slept == 0 then Arrive(id, true) else Poll(id);
        RunConcat(old(process), schedule, [look]);
        ghost var before := process;
        if process.now >= deadline {
          process := Put(process, id, Shed);
          assert process == Step(before, look);
          schedule := schedule + [look];
          return Some(false), schedule;
        }
        process := Put(process, id, Waiting(deadline));
        assert process == Step(before, look);
        schedule := schedule + [look];
        if slept == |sleeps| {
          return None, schedule;
        }
        ghost var asleep := process;
        Meanwhile(sleeps[slept]);
        OthersLeaveMeAlone(asleep, sleeps[slept], id);
        RunConcat(old(process), schedule, sleeps[slept]);
        schedule := schedule + sleeps[slept];
        slept := slept + 1;
      }
      ghost var look := if slept == 0 then Arrive(id, true) else Poll(id);
      RunConcat(old(process), schedule, [look]);
      ghost var before := process;
      process := Put(process.(inFlight := process.inFlight + 1), id, Inside);
      assert process == Step(before, look);
      schedule := schedule + [look];
      took := Some(true);
    }

    /** __call__ for a counted request: a place, the app, and the place given back however
        the app ends; or a 503 without the app. */
    method Call(id: Id, sleeps: seq<seq<Event>>, during: seq<Event>, how: Ending)
      returns (served: bool, ghost schedule: seq<Event>)
      requires id !in process.tasks && Others(during, id)
      requires forall n :: 0 <= n < |sleeps| ==> Others(sleeps[n], id)
      modifies this
      ensures process == Run(old(process), schedule)
      ensures old(Counted(process)) ==> Counted(process)
      ensures id in process.tasks && !process.tasks[id].Inside?
      ensures served <==> process.tasks[id].Gone?
      ensures process.tasks[id].Shed? ==> process.now >= old(process.now) + old(process.queue)
      ensures old(process.inFlight) < old(process.max) ==> served
    {
      var took;
      took, schedule := TakeAPlace(id, sleeps);
      served := false;
      if took == Some(true) {
        ghost var inside := process;
        Meanwhile(during);
        OthersLeaveMeAlone(inside, during, id);
        RunConcat(old(process), schedule, during);
        RunConcat(old(process), schedule + during, [Leave(id, how)]);
        ghost var before := process;
        process := Put(process.(inFlight := process.inFlight - 1), id, Gone);
        assert process == Step(before, Leave(id, how));
        schedule := schedule + during + [Leave(id, how)];
        served := true;
      }
      if old(Counted(process)) {
        CountIsTheNumberInside(old(process), schedule);
      }
    }
  }
}

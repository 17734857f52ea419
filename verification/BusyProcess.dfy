/**
 One process whole: the limiter of app/core/load_shedding.py, the requests it let in at their
 stages of the pool (app/db/session.py), and whoever else draws on that pool uncounted: the
 readiness check (app/core/health.py) and, with RUN_JOBS=true, the jobs that run in the app's own
 process (app/core/jobs.py). The pool's timeout on a wait is left out: a wait here lasts until a
 connection comes free or the one who waits is cancelled.
 */
module BusyProcess {
  import LoadShedding
  import opened PoolFreeze

  type Id = nat

  /** An uncounted user of one connection. A readiness check takes a worker thread first and keeps
      it, a job needs none. */
  datatype Apart = CheckNeedsThread | CheckNeedsConnection | CheckHolds | JobNeedsConnection | JobHolds

  /** A job that keeps one connection for its lock and takes a second beside it twice, giving it
      back in between (draft_one, read_one). */
  datatype Paired = FirstNeeded | SecondNeeded | BothHeld | SecondAgain | BothAgain

  /** At most `others` users of one connection and `pairs` of two are there at once. */
  datatype Process = Process(
    limiter: LoadShedding.State, pool: Pool, others: nat, pairs: nat,
    stages: map<Id, Stage>, apart: map<Id, Apart>, paired: map<Id, Paired>)

  datatype Event =
    | Limiter(event: LoadShedding.Event)   // arrive, look, cancel a sleep, leave, time passes
    | Advance(id: Id)                      // a request let in takes its next stage
    | Begin(id: Id, check: bool)           // a readiness check or a job
    | AdvanceApart(id: Id)
    | EndApart(id: Id)                     // done, failed or cancelled
    | BeginPair(id: Id)
    | AdvancePair(id: Id)
    | EndPair(id: Id)

  function Initial(max: nat, queue: nat, pool: Pool, others: nat, pairs: nat): Process {
    Process(LoadShedding.Initial(max, queue), pool, others, pairs, map[], map[], map[])
  }

  // ---- who holds what, and who needs what ----------------------------------------------------------

  /** Those whose stage is one of some. */
  function Having<T>(held: map<Id, T>, some: T -> bool): set<Id> {
    set id | id in held && some(held[id])
  }

  predicate HoldsThread(s: Stage) {
    s.NeedsConnection? || s.Working?
  }

  predicate HoldsConnection(s: Stage) {
    s.NeedsThreadAgain? || s.Working?
  }

  predicate ApartHoldsThread(a: Apart) {
    a.CheckNeedsConnection? || a.CheckHolds?
  }

  predicate ApartHoldsConnection(a: Apart) {
    a.CheckHolds? || a.JobHolds?
  }

  predicate HoldsFirst(j: Paired) {
    !j.FirstNeeded?
  }

  predicate HoldsSecond(j: Paired) {
    j.BothHeld? || j.BothAgain?
  }

  function ThreadsTaken(p: Process): nat {
    |Having(p.stages, HoldsThread)| + |Having(p.apart, ApartHoldsThread)|
  }

  function ConnectionsTaken(p: Process): nat {
    |Having(p.stages, HoldsConnection)| + |Having(p.apart, ApartHoldsConnection)|
    + |Having(p.paired, HoldsFirst)| + |Having(p.paired, HoldsSecond)|
  }

  predicate ThreadFree(p: Process) {
    ThreadsTaken(p) < p.pool.threads
  }

  predicate ConnectionFree(p: Process) {
    ConnectionsTaken(p) < p.pool.connections
  }

  predicate WantsThread(s: Stage) {
    s.NeedsThread? || s.NeedsThreadAgain?
  }

  predicate WantsConnection(s: Stage) {
    s.NeedsConnection?
  }

  predicate ApartWantsConnection(a: Apart) {
    a.CheckNeedsConnection? || a.JobNeedsConnection?
  }

  predicate PairWantsConnection(j: Paired) {
    j.FirstNeeded? || j.SecondNeeded? || j.SecondAgain?
  }

  predicate CanAdvance(p: Process, id: Id) {
    && id in p.stages && !p.stages[id].Done?
    && (WantsThread(p.stages[id]) ==> ThreadFree(p))
    && (WantsConnection(p.stages[id]) ==> ConnectionFree(p))
  }

  predicate CanAdvanceApart(p: Process, id: Id) {
    && id in p.apart && !ApartHoldsConnection(p.apart[id])
    && (p.apart[id].CheckNeedsThread? ==> ThreadFree(p))
    && (ApartWantsConnection(p.apart[id]) ==> ConnectionFree(p))
  }

  predicate CanAdvancePair(p: Process, id: Id) {
    && id in p.paired && !p.paired[id].BothAgain?
    && (PairWantsConnection(p.paired[id]) ==> ConnectionFree(p))
  }

  function NextApart(a: Apart): Apart {
    match a
    case CheckNeedsThread => CheckNeedsConnection
    case CheckNeedsConnection => CheckHolds
    case JobNeedsConnection => JobHolds
    case _ => a
  }

  function NextPair(j: Paired): Paired {
    match j
    case FirstNeeded => SecondNeeded
    case SecondNeeded => BothHeld
    case BothHeld => SecondAgain
    case SecondAgain => BothAgain
    case BothAgain => BothAgain
  }

  // ---- steps ---------------------------------------------------------------------------------------

  function InsideOf(l: LoadShedding.State): set<Id> {
    LoadShedding.InsideOf(l.tasks)
  }

  /** A request let in begins with nothing; one that left, however it left, has given all back. */
  function Stages(stages: map<Id, Stage>, inside: set<Id>): map<Id, Stage> {
    map id | id in inside :: if id in stages then stages[id] else NeedsThread
  }

  function Step(p: Process, e: Event): Process {
    match e
    case Limiter(event) =>
      var l := LoadShedding.Step(p.limiter, event);
      p.(limiter := l, stages := Stages(p.stages, InsideOf(l)))
    case Advance(id) =>
      if CanAdvance(p, id) then p.(stages := p.stages[id := Next(p.stages[id])]) else p
    case Begin(id, check) =>
      if id in p.apart || |p.apart.Keys| >= p.others then p
      else p.(apart := p.apart[id := if check then CheckNeedsThread else JobNeedsConnection])
    case AdvanceApart(id) =>
      if CanAdvanceApart(p, id) then p.(apart := p.apart[id := NextApart(p.apart[id])]) else p
    case EndApart(id) => p.(apart := p.apart - {id})
    case BeginPair(id) =>
      if id in p.paired || |p.paired.Keys| >= p.pairs then p
      else p.(paired := p.paired[id := FirstNeeded])
    case AdvancePair(id) =>
      if CanAdvancePair(p, id) then p.(paired := p.paired[id := NextPair(p.paired[id])]) else p
    case EndPair(id) => p.(paired := p.paired - {id})
  }

  function Run(p: Process, events: seq<Event>): Process {
    Fold(Step, p, events)
  }

  /** `step` over a list of events, from any state. */
  function Fold<S, E>(step: (S, E) -> S, state: S, events: seq<E>): S
    decreases events
  {
    if events == [] then state else Fold(step, step(state, events[0]), events[1..])
  }

  lemma {:induction false} FoldConcat<S, E>(step: (S, E) -> S, state: S, a: seq<E>, b: seq<E>)
    ensures Fold(step, state, a + b) == Fold(step, Fold(step, state, a), b)
    decreases a
  {
    if a == [] {
      assert a + b == b;
    } else {
      assert (a + b)[1..] == a[1..] + b;
      FoldConcat(step, step(state, a[0]), a[1..], b);
    }
  }

  lemma FoldOne<S, E>(step: (S, E) -> S, state: S, e: E)
    ensures Fold(step, state, [e]) == step(state, e)
  {
    assert [e][1..] == [];
  }

  /** Some run of the process leads from `start` to `p`. */
  ghost predicate Reaches(start: Process, p: Process) {
    exists events :: Run(start, events) == p
  }

  lemma ReachesItself(start: Process)
    ensures Reaches(start, start)
  {
    assert Run(start, []) == start;
  }

  lemma ReachesOn(start: Process, p: Process, e: Event)
    requires Reaches(start, p)
    ensures Reaches(start, Step(p, e))
  {
    var events :| Run(start, events) == p;
    FoldConcat(Step, start, events, [e]);
    FoldOne(Step, p, e);
    assert Run(start, events + [e]) == Step(p, e);
  }

  // ---- the limiter's count is what the pool sees ---------------------------------------------------

  /** The requests at a stage are exactly those the limiter counts. */
  ghost predicate Sound(p: Process) {
    && LoadShedding.Counted(p.limiter)
    && p.stages.Keys == InsideOf(p.limiter)
    && |p.apart.Keys| <= p.others
    && |p.paired.Keys| <= p.pairs
  }

  ghost predicate SameSettings(p: Process, q: Process) {
    q.limiter.max == p.limiter.max && q.pool == p.pool && q.others == p.others && q.pairs == p.pairs
  }

  lemma FewerKeys(a: set<Id>, b: set<Id>)
    requires a <= b
    ensures |a| <= |b|
  {
    assert b == a + (b - a);
  }

  lemma OneKeyMore<T>(held: map<Id, T>, id: Id, value: T)
    requires id !in held
    ensures |held[id := value].Keys| == |held.Keys| + 1
  {
    assert held[id := value].Keys == held.Keys + {id};
  }

  lemma SameKeys<T>(held: map<Id, T>, id: Id, value: T)
    requires id in held
    ensures held[id := value].Keys == held.Keys
  {}

  lemma OneKeyLess<T>(held: map<Id, T>, id: Id)
    ensures |(held - {id}).Keys| <= |held.Keys|
  {
    FewerKeys((held - {id}).Keys, held.Keys);
  }

  lemma StagesStayInside(p: Process, e: Event)
    requires LoadShedding.Counted(p.limiter) && p.stages.Keys == InsideOf(p.limiter)
    ensures LoadShedding.Counted(Step(p, e).limiter) && Step(p, e).stages.Keys == InsideOf(Step(p, e).limiter)
    ensures SameSettings(p, Step(p, e))
  {
    match e
    case Limiter(event) => LoadShedding.StepKeepsCount(p.limiter, event);
    case Advance(id) => if id in p.stages { SameKeys(p.stages, id, Next(p.stages[id])); }
    case _ =>
  }

  lemma ApartStaysFew(p: Process, e: Event)
    requires |p.apart.Keys| <= p.others
    ensures |Step(p, e).apart.Keys| <= p.others
  {
    match e
    case Begin(id, check) =>
      if id !in p.apart { OneKeyMore(p.apart, id, if check then CheckNeedsThread else JobNeedsConnection); }
    case AdvanceApart(id) => if id in p.apart { SameKeys(p.apart, id, NextApart(p.apart[id])); }
    case EndApart(id) => OneKeyLess(p.apart, id);
    case _ =>
  }

  lemma PairedStaysFew(p: Process, e: Event)
    requires |p.paired.Keys| <= p.pairs
    ensures |Step(p, e).paired.Keys| <= p.pairs
  {
    if Step(p, e).paired != p.paired {
      match e
      case BeginPair(id) => OneKeyMore(p.paired, id, FirstNeeded);
      case AdvancePair(id) => SameKeys(p.paired, id, NextPair(p.paired[id]));
      case EndPair(id) => OneKeyLess(p.paired, id);
    }
  }

  lemma StepIsSound(p: Process, e: Event)
    requires Sound(p)
    ensures Sound(Step(p, e)) && SameSettings(p, Step(p, e))
  {
    StagesStayInside(p, e);
    ApartStaysFew(p, e);
    PairedStaysFew(p, e);
  }

  lemma {:induction false} RunIsSound(p: Process, events: seq<Event>)
    requires Sound(p)
    ensures Sound(Run(p, events)) && SameSettings(p, Run(p, events))
    decreases events
  {
    if events == [] {
    } else {
      var front, last := events[..|events| - 1], events[|events| - 1];
      RunIsSound(p, front);
      StepIsSound(Run(p, front), last);
      FoldConcat(Step, p, front, [last]);
      FoldOne(Step, Run(p, front), last);
      assert events == front + [last];
    }
  }

  /** In every state reached from the start. */
  lemma ReachedIsSound(max: nat, queue: nat, pool: Pool, others: nat, pairs: nat, p: Process)
    requires Reaches(Initial(max, queue, pool, others, pairs), p)
    ensures Sound(p) && SameSettings(Initial(max, queue, pool, others, pairs), p)
  {
    var start := Initial(max, queue, pool, others, pairs);
    InitialIsSound(max, queue, pool, others, pairs);
    var events :| Run(start, events) == p;
    RunIsSound(start, events);
  }

  lemma InitialIsSound(max: nat, queue: nat, pool: Pool, others: nat, pairs: nat)
    ensures Sound(Initial(max, queue, pool, others, pairs))
  {
    assert InsideOf(LoadShedding.Initial(max, queue)) == {};
  }

  // ---- waiting for a connection --------------------------------------------------------------------

  /** A request that was let in has come to the point of needing a connection, and finds none. */
  ghost predicate RequestWaits(p: Process) {
    !ConnectionFree(p) && exists id :: id in p.stages && WantsConnection(p.stages[id])
  }

  ghost predicate CheckWaits(p: Process) {
    !ConnectionFree(p) && exists id :: id in p.apart && p.apart[id].CheckNeedsConnection?
  }

  ghost predicate JobWaits(p: Process) {
    && !ConnectionFree(p)
    && ((exists id :: id in p.apart && p.apart[id].JobNeedsConnection?)
        || exists id :: id in p.paired && PairWantsConnection(p.paired[id]))
  }

  ghost predicate SomebodyWaits(p: Process) {
    RequestWaits(p) || CheckWaits(p) || JobWaits(p)
  }

  lemma HavingAtMost<T>(held: map<Id, T>, some: T -> bool)
    ensures |Having(held, some)| <= |held.Keys|
  {
    FewerKeys(Having(held, some), held.Keys);
  }

  lemma HavingLess<T>(held: map<Id, T>, some: T -> bool, id: Id)
    requires id in held && !some(held[id])
    ensures |Having(held, some)| < |held.Keys|
  {
    FewerKeys(Having(held, some), held.Keys - {id});
  }

  /** With room for all of them, whoever needs a connection finds one. */
  lemma RoomForAll(p: Process)
    requires Sound(p) && p.limiter.max + p.others + 2 * p.pairs <= p.pool.connections
    ensures !SomebodyWaits(p)
  {
    HavingAtMost(p.stages, HoldsConnection);
    HavingAtMost(p.apart, ApartHoldsConnection);
    HavingAtMost(p.paired, HoldsFirst);
    HavingAtMost(p.paired, HoldsSecond);
    if id :| id in p.stages && WantsConnection(p.stages[id]) {
      HavingLess(p.stages, HoldsConnection, id);
    }
    if id :| id in p.apart && ApartWantsConnection(p.apart[id]) {
      HavingLess(p.apart, ApartHoldsConnection, id);
    }
    if id :| id in p.paired && PairWantsConnection(p.paired[id]) {
      HavingLess(p.paired, HoldsSecond, id);
    }
  }

  // ---- states that can be built --------------------------------------------------------------------

  /** How many requests keep a connection and want a thread again, and keep a thread and want a
      connection; jobs that hold theirs, and checks that keep a thread and want one; jobs of two
      that hold one at least, and both. */
  datatype Shape = Shape(again: nat, holding: nat, jobs: nat, checks: nat, firsts: nat, boths: nat)

  ghost predicate Shaped(p: Process, h: Shape) {
    && Sound(p)
    && (forall id :: id in p.stages ==> p.stages[id].NeedsThreadAgain? || p.stages[id].NeedsConnection?)
    && (forall id :: id in p.apart ==> p.apart[id].JobHolds? || p.apart[id].CheckNeedsConnection?)
    && (forall id :: id in p.paired ==> p.paired[id].SecondNeeded? || p.paired[id].BothHeld?)
    && |Having(p.stages, HoldsConnection)| == h.again && |Having(p.stages, HoldsThread)| == h.holding
    && |Having(p.apart, ApartHoldsConnection)| == h.jobs && |Having(p.apart, ApartHoldsThread)| == h.checks
    && |Having(p.paired, HoldsFirst)| == h.firsts && |Having(p.paired, HoldsSecond)| == h.boths
  }

  lemma Partition<T>(held: map<Id, T>, some: T -> bool, rest: T -> bool)
    requires forall id :: id in held ==> some(held[id]) != rest(held[id])
    ensures |held.Keys| == |Having(held, some)| + |Having(held, rest)|
  {
    assert held.Keys == Having(held, some) + Having(held, rest);
    assert Having(held, some) !! Having(held, rest);
  }

  /** In such a state everybody is counted once. */
  lemma ShapedCounts(p: Process, h: Shape)
    requires Shaped(p, h)
    ensures |p.stages.Keys| == h.again + h.holding == p.limiter.inFlight
    ensures |p.apart.Keys| == h.jobs + h.checks && |p.paired.Keys| == h.firsts
    ensures ThreadsTaken(p) == h.holding + h.checks && ConnectionsTaken(p) == h.again + h.jobs + h.firsts + h.boths
  {
    Partition(p.stages, HoldsConnection, HoldsThread);
    Partition(p.apart, ApartHoldsConnection, ApartHoldsThread);
    Partition(p.paired, HoldsFirst, j => false);
    assert Having(p.paired, j => false) == {};
  }

  function B2N(b: bool): nat {
    if b then 1 else 0
  }

  /** What one more entry, or a changed one, does to a count. */
  lemma Added<T>(held: map<Id, T>, id: Id, value: T, some: T -> bool)
    requires id !in held
    ensures |Having(held[id := value], some)| == |Having(held, some)| + B2N(some(value))
  {
    assert Having(held[id := value], some) == Having(held, some) + if some(value) then {id} else {};
  }

  lemma Changed<T>(held: map<Id, T>, id: Id, value: T, some: T -> bool)
    requires id in held
    ensures |Having(held[id := value], some)| == |Having(held, some)| - B2N(some(held[id])) + B2N(some(value))
  {
    var before, after := Having(held, some), Having(held[id := value], some);
    if some(value) {
      assert after == before + {id};
    } else {
      assert after == before - {id};
    }
  }

  lemma Unused(taken: set<Id>) returns (id: Id)
    ensures id !in taken
  {
    id := 0;
    var seen: set<Id> := {};
    while id in taken
      invariant seen <= taken
      invariant forall n :: n in seen ==> n < id
      decreases taken - seen
    {
      seen := seen + {id};
      id := id + 1;
    }
  }

  lemma LimiterLetsIn(l: LoadShedding.State, id: Id)
    requires id !in l.tasks && l.inFlight < l.max
    ensures InsideOf(LoadShedding.Step(l, LoadShedding.Arrive(id, true))) == InsideOf(l) + {id}
  {}

  lemma BeginsWithNothing(stages: map<Id, Stage>, id: Id)
    requires id !in stages
    ensures Stages(stages, stages.Keys + {id}) == stages[id := NeedsThread]
  {}

  /** The limiter lets a newcomer in while a place is free; it begins with nothing. */
  lemma LetIn(p: Process, id: Id)
    requires Sound(p) && id !in p.limiter.tasks && p.limiter.inFlight < p.limiter.max
    ensures var q := Step(p, Limiter(LoadShedding.Arrive(id, true)));
            Sound(q) && SameSettings(p, q) && id !in p.stages
            && q == p.(limiter := q.limiter, stages := p.stages[id := NeedsThread])
  {
    assert id !in InsideOf(p.limiter);
    LimiterLetsIn(p.limiter, id);
    BeginsWithNothing(p.stages, id);
    StepIsSound(p, Limiter(LoadShedding.Arrive(id, true)));
  }

  lemma Advances(p: Process, id: Id)
    requires Sound(p) && CanAdvance(p, id)
    ensures Step(p, Advance(id)) == p.(stages := p.stages[id := Next(p.stages[id])]) && Sound(Step(p, Advance(id)))
  {
    StepIsSound(p, Advance(id));
  }

  /** The requests of `q` are those of `p` with one more, or one changed. */
  lemma ShapedByRequest(p: Process, h: Shape, q: Process, id: Id, stage: Stage, g: Shape)
    requires Shaped(p, h) && Sound(q) && (stage.NeedsThreadAgain? || stage.NeedsConnection?)
    requires q.stages == p.stages[id := stage] && q.apart == p.apart && q.paired == p.paired
    requires id in p.stages ==> p.stages[id] == NeedsConnection && stage == NeedsThreadAgain && h.holding >= 1
    requires g == if id in p.stages then h.(again := h.again + 1, holding := h.holding - 1)
                  else if stage == NeedsConnection then h.(holding := h.holding + 1) else h.(again := h.again + 1)
    ensures Shaped(q, g)
  {
    if id in p.stages {
      Changed(p.stages, id, stage, HoldsConnection);
      Changed(p.stages, id, stage, HoldsThread);
    } else {
      Added(p.stages, id, stage, HoldsConnection);
      Added(p.stages, id, stage, HoldsThread);
    }
  }

  /** One more request comes in and takes a thread. */
  lemma NewRequest(start: Process, p: Process, h: Shape) returns (q: Process)
    requires Reaches(start, p) && Shaped(p, h)
    requires h.again + h.holding < p.limiter.max && h.holding + h.checks < p.pool.threads
    ensures Reaches(start, q) && Shaped(q, h.(holding := h.holding + 1)) && SameSettings(p, q)
  {
    ShapedCounts(p, h);
    var id := Unused(p.limiter.tasks.Keys);
    LetIn(p, id);
    var r := Step(p, Limiter(LoadShedding.Arrive(id, true)));
    ReachesOn(start, p, Limiter(LoadShedding.Arrive(id, true)));
    Added(p.stages, id, NeedsThread, HoldsThread);
    Advances(r, id);
    ReachesOn(start, r, Advance(id));
    q := Step(r, Advance(id));
    assert q.stages == p.stages[id := NeedsConnection];
    ShapedByRequest(p, h, q, id, NeedsConnection, h.(holding := h.holding + 1));
  }

  /** A request that keeps a thread gets its connection and gives the thread back. */
  lemma GetsConnection(start: Process, p: Process, h: Shape) returns (q: Process)
    requires Reaches(start, p) && Shaped(p, h) && h.holding >= 1 && ConnectionFree(p)
    ensures Reaches(start, q) && Shaped(q, h.(again := h.again + 1, holding := h.holding - 1)) && SameSettings(p, q)
  {
    var id :| id in Having(p.stages, HoldsThread);
    Advances(p, id);
    ReachesOn(start, p, Advance(id));
    q := Step(p, Advance(id));
    ShapedByRequest(p, h, q, id, NeedsThreadAgain, h.(again := h.again + 1, holding := h.holding - 1));
  }

  lemma Begins(p: Process, id: Id, check: bool)
    requires Sound(p) && id !in p.apart && |p.apart.Keys| < p.others
    ensures var q := Step(p, Begin(id, check));
            Sound(q) && q == p.(apart := p.apart[id := if check then CheckNeedsThread else JobNeedsConnection])
  {
    StepIsSound(p, Begin(id, check));
  }

  lemma AdvancesApart(p: Process, id: Id)
    requires Sound(p) && CanAdvanceApart(p, id)
    ensures Step(p, AdvanceApart(id)) == p.(apart := p.apart[id := NextApart(p.apart[id])])
    ensures Sound(Step(p, AdvanceApart(id)))
  {
    StepIsSound(p, AdvanceApart(id));
  }

  lemma ShapedByApart(p: Process, h: Shape, q: Process, id: Id, a: Apart, g: Shape)
    requires Shaped(p, h) && Sound(q) && (a.JobHolds? || a.CheckNeedsConnection?) && id !in p.apart
    requires q.apart == p.apart[id := a] && q.stages == p.stages && q.paired == p.paired
    requires g == if a == JobHolds then h.(jobs := h.jobs + 1) else h.(checks := h.checks + 1)
    ensures Shaped(q, g)
  {
    Added(p.apart, id, a, ApartHoldsConnection);
    Added(p.apart, id, a, ApartHoldsThread);
  }

  /** One more job begins and takes its connection, or one more check and takes its thread. */
  lemma NewApart(start: Process, p: Process, h: Shape, check: bool) returns (q: Process)
    requires Reaches(start, p) && Shaped(p, h) && h.jobs + h.checks < p.others
    requires if check then ThreadFree(p) else ConnectionFree(p)
    ensures Reaches(start, q) && SameSettings(p, q)
    ensures Shaped(q, if check then h.(checks := h.checks + 1) else h.(jobs := h.jobs + 1))
  {
    ShapedCounts(p, h);
    var id := Unused(p.apart.Keys);
    Begins(p, id, check);
    var r := Step(p, Begin(id, check));
    ReachesOn(start, p, Begin(id, check));
    var first := if check then CheckNeedsThread else JobNeedsConnection;
    Added(p.apart, id, first, ApartHoldsConnection);
    Added(p.apart, id, first, ApartHoldsThread);
    AdvancesApart(r, id);
    ReachesOn(start, r, AdvanceApart(id));
    q := Step(r, AdvanceApart(id));
    assert q.apart == p.apart[id := NextApart(first)];
    ShapedByApart(p, h, q, id, NextApart(first), if check then h.(checks := h.checks + 1) else h.(jobs := h.jobs + 1));
  }

  lemma BeginsPair(p: Process, id: Id)
    requires Sound(p) && id !in p.paired && |p.paired.Keys| < p.pairs
    ensures Step(p, BeginPair(id)) == p.(paired := p.paired[id := FirstNeeded]) && Sound(Step(p, BeginPair(id)))
  {
    StepIsSound(p, BeginPair(id));
  }

  lemma AdvancesPair(p: Process, id: Id)
    requires Sound(p) && CanAdvancePair(p, id)
    ensures Step(p, AdvancePair(id)) == p.(paired := p.paired[id := NextPair(p.paired[id])])
    ensures Sound(Step(p, AdvancePair(id)))
  {
    StepIsSound(p, AdvancePair(id));
  }

  lemma ShapedByPair(p: Process, h: Shape, q: Process, id: Id)
    requires Shaped(p, h) && Sound(q) && id !in p.paired
    requires q.paired == p.paired[id := SecondNeeded] && q.stages == p.stages && q.apart == p.apart
    ensures Shaped(q, h.(firsts := h.firsts + 1))
  {
    Added(p.paired, id, SecondNeeded, HoldsFirst);
    Added(p.paired, id, SecondNeeded, HoldsSecond);
  }

  /** One more job of two takes its first connection. */
  lemma NewPair(start: Process, p: Process, h: Shape) returns (q: Process)
    requires Reaches(start, p) && Shaped(p, h) && h.firsts < p.pairs && ConnectionFree(p)
    ensures Reaches(start, q) && Shaped(q, h.(firsts := h.firsts + 1)) && SameSettings(p, q)
  {
    ShapedCounts(p, h);
    var id := Unused(p.paired.Keys);
    BeginsPair(p, id);
    ReachesOn(start, p, BeginPair(id));
    Added(p.paired, id, FirstNeeded, HoldsFirst);
    Added(p.paired, id, FirstNeeded, HoldsSecond);
    q := TakesFirst(start, Step(p, BeginPair(id)), p.paired, id);
    ShapedByPair(p, h, q, id);
  }

  lemma TakesFirst(start: Process, p: Process, before: map<Id, Paired>, id: Id) returns (q: Process)
    requires Reaches(start, p) && Sound(p) && p.paired == before[id := FirstNeeded] && ConnectionFree(p)
    ensures Reaches(start, q) && Sound(q) && q == p.(paired := before[id := SecondNeeded])
  {
    AdvancesPair(p, id);
    ReachesOn(start, p, AdvancePair(id));
    q := Step(p, AdvancePair(id));
    assert q.paired == before[id := SecondNeeded];
  }

  /** A job of two takes its second. */
  lemma GetsSecond(start: Process, p: Process, h: Shape) returns (q: Process)
    requires Reaches(start, p) && Shaped(p, h) && h.boths < h.firsts && ConnectionFree(p)
    ensures Reaches(start, q) && Shaped(q, h.(boths := h.boths + 1)) && SameSettings(p, q)
  {
    var id := WantsSecond(p, h);
    AdvancesPair(p, id);
    ReachesOn(start, p, AdvancePair(id));
    q := Step(p, AdvancePair(id));
    Changed(p.paired, id, BothHeld, HoldsFirst);
    Changed(p.paired, id, BothHeld, HoldsSecond);
  }

  lemma WantsSecond(p: Process, h: Shape) returns (id: Id)
    requires Shaped(p, h) && h.boths < h.firsts
    ensures id in p.paired && p.paired[id] == SecondNeeded
  {
    var firsts, boths := Having(p.paired, HoldsFirst), Having(p.paired, HoldsSecond);
    if firsts <= boths {
      FewerKeys(firsts, boths);
    }
    id :| id in firsts && id !in boths;
  }

  const NOBODY := Shape(0, 0, 0, 0, 0, 0)

  lemma StartIsShaped(max: nat, queue: nat, pool: Pool, others: nat, pairs: nat)
    ensures var start := Initial(max, queue, pool, others, pairs);
            Shaped(start, NOBODY) && Reaches(start, start) && SameSettings(start, start)
  {
    var start := Initial(max, queue, pool, others, pairs);
    InitialIsSound(max, queue, pool, others, pairs);
    ReachesItself(start);
    assert start.stages.Keys == {} && start.apart.Keys == {} && start.paired.Keys == {};
    HavingAtMost(start.stages, HoldsConnection);
    HavingAtMost(start.stages, HoldsThread);
    HavingAtMost(start.apart, ApartHoldsConnection);
    HavingAtMost(start.apart, ApartHoldsThread);
    HavingAtMost(start.paired, HoldsFirst);
    HavingAtMost(start.paired, HoldsSecond);
  }

  /** `n` connections taken by users who could take so many: `a` requests, `j` jobs, `k` of two. */
  ghost predicate TakenBy(h: Shape, a: nat, j: nat, k: nat, n: nat) {
    && h.again <= a && h.jobs <= j && h.firsts <= k && h.holding == 0 && h.checks == 0
    && h.again + h.jobs + h.firsts + h.boths == n
  }

  lemma {:induction false} Fill(start: Process, a: nat, j: nat, k: nat, n: nat) returns (p: Process, h: Shape)
    requires Shaped(start, NOBODY) && start.pool.threads >= 1
    requires a <= start.limiter.max && j <= start.others && k <= start.pairs
    requires n <= start.pool.connections && n <= a + j + 2 * k
    ensures Reaches(start, p) && Shaped(p, h) && SameSettings(start, p) && TakenBy(h, a, j, k, n)
    decreases n
  {
    if n == 0 {
      ReachesItself(start);
      p, h := start, NOBODY;
    } else {
      p, h := Fill(start, a, j, k, n - 1);
      p, h := TakeOneMore(start, p, h, a, j, k, n - 1);
    }
  }

  lemma TakeOneMore(start: Process, p: Process, h: Shape, a: nat, j: nat, k: nat, n: nat) returns (q: Process, g: Shape)
    requires Reaches(start, p) && Shaped(p, h) && TakenBy(h, a, j, k, n) && p.pool.threads >= 1
    requires a <= p.limiter.max && j <= p.others && k <= p.pairs
    requires n < p.pool.connections && n < a + j + 2 * k
    ensures Reaches(start, q) && Shaped(q, g) && SameSettings(p, q) && TakenBy(g, a, j, k, n + 1)
  {
    ShapedCounts(p, h);
    if h.again < a {
      q := RequestTakes(start, p, h);
      g := h.(again := h.again + 1);
    } else if h.jobs < j {
      q := NewApart(start, p, h, false);
      g := h.(jobs := h.jobs + 1);
    } else {
      q, g := PairTakes(start, p, h, k);
    }
  }

  lemma RequestTakes(start: Process, p: Process, h: Shape) returns (q: Process)
    requires Reaches(start, p) && Shaped(p, h) && h.holding == h.checks == 0 && p.pool.threads >= 1
    requires h.again < p.limiter.max && ConnectionFree(p)
    ensures Reaches(start, q) && Shaped(q, h.(again := h.again + 1)) && SameSettings(p, q)
  {
    ShapedCounts(p, h);
    var r := NewRequest(start, p, h);
    ShapedCounts(r, h.(holding := 1));
    q := GetsConnection(start, r, h.(holding := 1));
  }

  lemma PairTakes(start: Process, p: Process, h: Shape, k: nat) returns (q: Process, g: Shape)
    requires Reaches(start, p) && Shaped(p, h) && ConnectionFree(p)
    requires h.firsts <= k <= p.pairs && h.firsts + h.boths < 2 * k
    ensures Reaches(start, q) && Shaped(q, g) && SameSettings(p, q) && g.firsts <= k
    ensures g == h.(firsts := g.firsts, boths := g.boths) && g.firsts + g.boths == h.firsts + h.boths + 1
  {
    BothsAtMost(p, h);
    if h.boths < h.firsts {
      q := GetsSecond(start, p, h);
      g := h.(boths := h.boths + 1);
    } else {
      q := NewPair(start, p, h);
      g := h.(firsts := h.firsts + 1);
    }
  }

  lemma BothsAtMost(p: Process, h: Shape)
    requires Shaped(p, h)
    ensures h.boths <= h.firsts
  {
    FewerKeys(Having(p.paired, HoldsSecond), Having(p.paired, HoldsFirst));
  }

  // ---- exactly who can be made to wait -------------------------------------------------------------

  /** A request that keeps a thread, and no connection free. */
  lemma HoldingWaits(p: Process, h: Shape)
    requires Shaped(p, h) && h.holding >= 1 && !ConnectionFree(p)
    ensures RequestWaits(p)
  {
    var id :| id in Having(p.stages, HoldsThread);
    assert id in p.stages && WantsConnection(p.stages[id]);
  }

  lemma CheckingWaits(p: Process, h: Shape)
    requires Shaped(p, h) && h.checks >= 1 && !ConnectionFree(p)
    ensures CheckWaits(p)
  {
    var id :| id in Having(p.apart, ApartHoldsThread);
    assert id in p.apart && p.apart[id].CheckNeedsConnection?;
  }

  /** A request that was let in can be made to wait for a connection exactly when anybody is let
      in at all and there are more places and uncounted users' needs than connections. */
  lemma RequestWaitsExactly(max: nat, queue: nat, pool: Pool, others: nat, pairs: nat)
    requires pool.threads >= 1
    ensures (exists p :: Reaches(Initial(max, queue, pool, others, pairs), p) && RequestWaits(p))
       <==> max >= 1 && max + others + 2 * pairs > pool.connections
  {
    var start := Initial(max, queue, pool, others, pairs);
    if p :| Reaches(start, p) && RequestWaits(p) {
      ReachedIsSound(max, queue, pool, others, pairs, p);
      var id :| id in p.stages && WantsConnection(p.stages[id]);
      HavingLess(p.stages, HoldsConnection, id);
      if max + others + 2 * pairs <= pool.connections {
        RoomForAll(p);
      }
    }
    if max >= 1 && max + others + 2 * pairs > pool.connections {
      StartIsShaped(max, queue, pool, others, pairs);
      var p, h := Fill(start, max - 1, others, pairs, pool.connections);
      var q := NewRequest(start, p, h);
      ShapedCounts(q, h.(holding := 1));
      HoldingWaits(q, h.(holding := 1));
    }
  }

  /** And a readiness check exactly when there is one among the uncounted users, and the same. */
  lemma CheckWaitsExactly(max: nat, queue: nat, pool: Pool, others: nat, pairs: nat)
    requires pool.threads >= 1
    ensures (exists p :: Reaches(Initial(max, queue, pool, others, pairs), p) && CheckWaits(p))
       <==> others >= 1 && max + others + 2 * pairs > pool.connections
  {
    var start := Initial(max, queue, pool, others, pairs);
    if p :| Reaches(start, p) && CheckWaits(p) {
      ReachedIsSound(max, queue, pool, others, pairs, p);
      var id :| id in p.apart && p.apart[id].CheckNeedsConnection?;
      HavingLess(p.apart, ApartHoldsConnection, id);
      if max + others + 2 * pairs <= pool.connections {
        RoomForAll(p);
      }
    }
    if others >= 1 && max + others + 2 * pairs > pool.connections {
      StartIsShaped(max, queue, pool, others, pairs);
      var p, h := Fill(start, max, others - 1, pairs, pool.connections);
      ShapedCounts(p, h);
      var q := NewApart(start, p, h, true);
      ShapedCounts(q, h.(checks := 1));
      CheckingWaits(q, h.(checks := 1));
    }
  }

  /** With nobody but jobs of two, one of them waits. */
  lemma PairCanWait(queue: nat, pool: Pool, pairs: nat) returns (q: Process)
    requires pool.threads >= 1 && 2 * pairs > pool.connections
    ensures Reaches(Initial(0, queue, pool, 0, pairs), q) && JobWaits(q)
  {
    var start := Initial(0, queue, pool, 0, pairs);
    StartIsShaped(0, queue, pool, 0, pairs);
    var p, h := Fill(start, 0, 0, pairs, pool.connections);
    ShapedCounts(p, h);
    BothsAtMost(p, h);
    if h.boths < h.firsts {
      q := p;
      var id := WantsSecond(p, h);
      assert PairWantsConnection(p.paired[id]);
    } else {
      var id := Unused(p.paired.Keys);
      BeginsPair(p, id);
      ReachesOn(start, p, BeginPair(id));
      q := Step(p, BeginPair(id));
      Added(p.paired, id, FirstNeeded, HoldsFirst);
      Added(p.paired, id, FirstNeeded, HoldsSecond);
      assert id in q.paired && PairWantsConnection(q.paired[id]);
    }
  }

  /** Nobody waits for a connection, in any state any run of the process reaches. */
  ghost predicate NobodyEverWaits(start: Process) {
    forall p :: Reaches(start, p) ==> !SomebodyWaits(p)
  }

  /** However requests come, wait, are shed, return, raise or are cancelled, and whatever uncounted
      users do: nobody ever waits for a connection exactly when there is one for each need. */
  lemma NobodyWaitsExactly(max: nat, queue: nat, pool: Pool, others: nat, pairs: nat)
    requires pool.threads >= 1
    ensures NobodyEverWaits(Initial(max, queue, pool, others, pairs)) <==> max + others + 2 * pairs <= pool.connections
  {
    var start := Initial(max, queue, pool, others, pairs);
    if max + others + 2 * pairs <= pool.connections {
      forall p | Reaches(start, p) ensures !SomebodyWaits(p) {
        ReachedIsSound(max, queue, pool, others, pairs, p);
        RoomForAll(p);
      }
    } else {
      RequestWaitsExactly(max, queue, pool, others, pairs);
      CheckWaitsExactly(max, queue, pool, others, pairs);
      if max == 0 && others == 0 {
        var q := PairCanWait(queue, pool, pairs);
        assert SomebodyWaits(q);
      }
    }
  }

  // ---- the settings check --------------------------------------------------------------------------

  /** in_flight_fits_the_pool. */
  predicate SettingsAccepted(poolSize: nat, overflow: nat, maxInFlight: nat) {
    maxInFlight < poolSize + overflow
  }

  /** The settings are accepted exactly when nobody can ever wait beside one uncounted user: one
      readiness check, or one job of one connection. */
  lemma SettingsCheckIsExact(poolSize: nat, overflow: nat, maxInFlight: nat, queue: nat, threads: nat)
    requires threads >= 1
    ensures SettingsAccepted(poolSize, overflow, maxInFlight) <==>
            NobodyEverWaits(Initial(maxInFlight, queue, Pool(threads, poolSize + overflow), 1, 0))
  {
    NobodyWaitsExactly(maxInFlight, queue, Pool(threads, poolSize + overflow), 1, 0);
  }

  /** Beside two it is not enough: at the largest limit accepted, a request that was let in can be
      made to wait, and so can a readiness check. */
  lemma AcceptedRequestCanWait(maxInFlight: nat, queue: nat, poolSize: nat, overflow: nat, threads: nat)
    requires threads >= 1 && maxInFlight >= 1 && poolSize + overflow == maxInFlight + 1
    ensures SettingsAccepted(poolSize, overflow, maxInFlight)
    ensures var start := Initial(maxInFlight, queue, Pool(threads, poolSize + overflow), 2, 0);
            && (exists p :: Reaches(start, p) && RequestWaits(p))
            && (exists p :: Reaches(start, p) && CheckWaits(p))
  {
    RequestWaitsExactly(maxInFlight, queue, Pool(threads, poolSize + overflow), 2, 0);
    CheckWaitsExactly(maxInFlight, queue, Pool(threads, poolSize + overflow), 2, 0);
  }

  // ---- how far the work under way still has to go --------------------------------------------------

  function ApartLeft(a: Apart): nat {
    match a
    case CheckNeedsThread => 3
    case CheckNeedsConnection => 2
    case CheckHolds => 1
    case JobNeedsConnection => 2
    case JobHolds => 1
  }

  function PairLeft(j: Paired): nat {
    match j
    case FirstNeeded => 5
    case SecondNeeded => 4
    case BothHeld => 3
    case SecondAgain => 2
    case BothAgain => 1
  }

  function StageAbove(k: nat): Stage -> bool {
    s => StagesLeft(s) > k
  }

  function ApartAbove(k: nat): Apart -> bool {
    a => ApartLeft(a) > k
  }

  function PairAbove(k: nat): Paired -> bool {
    j => PairLeft(j) > k
  }

  /** The steps all of some users still have to take: one for each that has more than k to take,
      for every k. */
  function LeftAbove<T>(held: map<Id, T>, above: nat -> T -> bool, k: nat): nat {
    if k == 0 then 0 else |Having(held, above(k - 1))| + LeftAbove(held, above, k - 1)
  }

  function WorkLeft(p: Process): nat {
    LeftAbove(p.stages, StageAbove, 4) + LeftAbove(p.apart, ApartAbove, 3) + LeftAbove(p.paired, PairAbove, 5)
  }

  /** A step that brings the work under way on; a wait's end by cancellation is none. */
  predicate Useful(p: Process, e: Event) {
    match e
    case Advance(id) => CanAdvance(p, id)
    case AdvanceApart(id) => CanAdvanceApart(p, id)
    case EndApart(id) => id in p.apart && ApartHoldsConnection(p.apart[id])
    case AdvancePair(id) => CanAdvancePair(p, id)
    case EndPair(id) => id in p.paired && p.paired[id].BothAgain?
    case _ => false
  }

  /** One user's step takes one from the count at one level. */
  lemma {:induction false} LevelsDrop<T>(held: map<Id, T>, above: nat -> T -> bool, id: Id, value: T, left: nat, k: nat)
    requires id in held && left >= 1
    requires forall n: nat :: above(n)(held[id]) <==> n < left
    requires forall n: nat :: above(n)(value) <==> n < left - 1
    ensures LeftAbove(held[id := value], above, k) == LeftAbove(held, above, k) - if left <= k then 1 else 0
    decreases k
  {
    if k > 0 {
      LevelsDrop(held, above, id, value, left, k - 1);
      Changed(held, id, value, above(k - 1));
    }
  }

  lemma {:induction false} LevelsEnd<T>(held: map<Id, T>, above: nat -> T -> bool, id: Id, k: nat)
    requires id in held && k >= 1
    requires forall n: nat :: above(n)(held[id]) <==> n < 1
    ensures LeftAbove(held - {id}, above, k) == LeftAbove(held, above, k) - 1
    decreases k
  {
    var left := held - {id};
    assert Having(left, above(k - 1)) == Having(held, above(k - 1)) - {id};
    if k > 1 {
      LevelsEnd(held, above, id, k - 1);
    }
  }

  lemma UsefulStepsCount(p: Process, e: Event)
    requires Useful(p, e)
    ensures WorkLeft(Step(p, e)) == WorkLeft(p) - 1
  {
    match e
    case Advance(id) => LevelsDrop(p.stages, StageAbove, id, Next(p.stages[id]), StagesLeft(p.stages[id]), 4);
    case AdvanceApart(id) => LevelsDrop(p.apart, ApartAbove, id, NextApart(p.apart[id]), ApartLeft(p.apart[id]), 3);
    case EndApart(id) => LevelsEnd(p.apart, ApartAbove, id, 3);
    case AdvancePair(id) => LevelsDrop(p.paired, PairAbove, id, NextPair(p.paired[id]), PairLeft(p.paired[id]), 5);
    case EndPair(id) => LevelsEnd(p.paired, PairAbove, id, 5);
  }

  // ---- exactly when the process can freeze ---------------------------------------------------------

  /** Somebody let in, or an uncounted user, is not done. */
  ghost predicate WorkUnderWay(p: Process) {
    (exists id :: id in p.stages && !p.stages[id].Done?) || p.apart.Keys != {} || p.paired.Keys != {}
  }

  /** Work under way, and nobody can bring any of it on. */
  ghost predicate Frozen(p: Process) {
    WorkUnderWay(p) && forall e :: !Useful(p, e)
  }

  /** What everybody in a freeze is waiting for. */
  ghost predicate Stuck(p: Process) {
    && (forall id :: id in p.stages ==> !CanAdvance(p, id))
    && (forall id :: id in p.apart ==> !CanAdvanceApart(p, id) && !ApartHoldsConnection(p.apart[id]))
    && (forall id :: id in p.paired ==> !CanAdvancePair(p, id) && !p.paired[id].BothAgain?)
  }

  lemma FrozenIsStuck(p: Process)
    ensures Frozen(p) <==> WorkUnderWay(p) && Stuck(p)
  {
    if WorkUnderWay(p) && forall e :: !Useful(p, e) {
      forall id | id in p.stages ensures !CanAdvance(p, id) {
        assert !Useful(p, Advance(id));
      }
      forall id | id in p.apart ensures !CanAdvanceApart(p, id) && !ApartHoldsConnection(p.apart[id]) {
        assert !Useful(p, AdvanceApart(id)) && !Useful(p, EndApart(id));
      }
      forall id | id in p.paired ensures !CanAdvancePair(p, id) && !p.paired[id].BothAgain? {
        assert !Useful(p, AdvancePair(id)) && !Useful(p, EndPair(id));
      }
    }
  }

  /** With a connection free, nobody who cannot move holds a thread: so every thread is free, and
      there is nobody. */
  lemma FreeConnectionMoves(p: Process)
    requires Stuck(p) && ConnectionFree(p) && p.pool.threads >= 1
    ensures !WorkUnderWay(p)
  {
    forall id | id in p.stages ensures !HoldsThread(p.stages[id]) {
      assert !CanAdvance(p, id);
    }
    forall id | id in p.apart ensures p.apart[id].CheckNeedsThread? {
      assert !CanAdvanceApart(p, id);
    }
    assert Having(p.stages, HoldsThread) == {} && Having(p.apart, ApartHoldsThread) == {};
    assert forall id :: id in p.apart ==> CanAdvanceApart(p, id);
    assert forall id :: id in p.paired ==> CanAdvancePair(p, id);
    assert p.apart.Keys == {} && p.paired.Keys == {};
    assert forall id :: id in p.stages && !p.stages[id].Done? ==> CanAdvance(p, id);
  }

  /** Requests in a freeze hold a thread or a connection, not both; the others one connection at
      most, or a thread. */
  lemma StuckHoldings(p: Process)
    requires Stuck(p) && !ConnectionFree(p) && Sound(p)
    ensures |Having(p.stages, HoldsConnection)| + |Having(p.stages, HoldsThread)| <= p.limiter.max
    ensures |Having(p.apart, ApartHoldsConnection)| == 0 && |Having(p.apart, ApartHoldsThread)| <= p.others
    ensures |Having(p.paired, HoldsSecond)| == 0 && |Having(p.paired, HoldsFirst)| <= p.pairs
  {
    var keep, hold := Having(p.stages, HoldsConnection), Having(p.stages, HoldsThread);
    forall id | id in p.stages ensures !p.stages[id].Working? {
      assert !CanAdvance(p, id);
    }
    assert keep !! hold;
    FewerKeys(keep + hold, p.stages.Keys);
    assert |keep + hold| == |keep| + |hold|;
    assert Having(p.apart, ApartHoldsConnection) == {};
    HavingAtMost(p.apart, ApartHoldsThread);
    forall id | id in p.paired ensures !HoldsSecond(p.paired[id]) {
      assert !CanAdvancePair(p, id);
    }
    assert Having(p.paired, HoldsSecond) == {};
    HavingAtMost(p.paired, HoldsFirst);
  }

  lemma FreezeNeeds(p: Process)
    requires Sound(p) && Frozen(p) && p.pool.threads >= 1
    ensures CanFreeze(p.limiter.max, p.pool, p.others, p.pairs)
  {
    FrozenIsStuck(p);
    if ConnectionFree(p) {
      FreeConnectionMoves(p);
    }
    StuckHoldings(p);
    if id :| id in Having(p.stages, HoldsConnection) {
      assert !CanAdvance(p, id);
      assert !ThreadFree(p);
    } else {
      assert Having(p.stages, HoldsConnection) == {};
    }
  }

  /** As many jobs of two as connections; or, with those jobs, requests enough to take every
      connection, and with the uncounted users besides enough to take every thread too. */
  predicate CanFreeze(max: nat, pool: Pool, others: nat, pairs: nat) {
    || pairs >= pool.connections
    || (max + pairs >= pool.connections && max + pairs + others >= pool.connections + pool.threads)
  }

  lemma {:induction false} AddPairs(start: Process, p: Process, h: Shape, n: nat) returns (q: Process)
    requires Reaches(start, p) && Shaped(p, h) && h.boths == 0
    requires h.firsts + n <= p.pairs && h.again + h.jobs + h.firsts + n <= p.pool.connections
    ensures Reaches(start, q) && Shaped(q, h.(firsts := h.firsts + n)) && SameSettings(p, q)
    decreases n
  {
    q := p;
    if n > 0 {
      q := AddPairs(start, p, h, n - 1);
      ShapedCounts(q, h.(firsts := h.firsts + n - 1));
      q := NewPair(start, q, h.(firsts := h.firsts + n - 1));
    }
  }

  lemma {:induction false} AddRequests(start: Process, p: Process, h: Shape, n: nat) returns (q: Process)
    requires Reaches(start, p) && Shaped(p, h)
    requires h.again + h.holding + n <= p.limiter.max && h.holding + h.checks + n <= p.pool.threads
    ensures Reaches(start, q) && Shaped(q, h.(holding := h.holding + n)) && SameSettings(p, q)
    decreases n
  {
    q := p;
    if n > 0 {
      q := AddRequests(start, p, h, n - 1);
      q := NewRequest(start, q, h.(holding := h.holding + n - 1));
    }
  }

  lemma {:induction false} AddChecks(start: Process, p: Process, h: Shape, n: nat) returns (q: Process)
    requires Reaches(start, p) && Shaped(p, h)
    requires h.jobs + h.checks + n <= p.others && h.holding + h.checks + n <= p.pool.threads
    ensures Reaches(start, q) && Shaped(q, h.(checks := h.checks + n)) && SameSettings(p, q)
    decreases n
  {
    q := p;
    if n > 0 {
      q := AddChecks(start, p, h, n - 1);
      ShapedCounts(q, h.(checks := h.checks + n - 1));
      q := NewApart(start, q, h.(checks := h.checks + n - 1), true);
    }
  }

  /** Every connection kept by somebody who wants more, and every thread too when a request is
      among them: nothing moves. */
  lemma ShapedFreezes(p: Process, h: Shape)
    requires Shaped(p, h) && h.jobs == 0 && h.boths == 0 && p.pool.connections >= 1
    requires h.again + h.firsts == p.pool.connections
    requires h.again > 0 ==> h.holding + h.checks == p.pool.threads
    ensures Frozen(p)
  {
    ShapedCounts(p, h);
    assert Having(p.apart, ApartHoldsConnection) == {} && Having(p.paired, HoldsSecond) == {};
    if h.again == 0 {
      assert Having(p.stages, HoldsConnection) == {};
    }
    assert Stuck(p) by { ShapedIsStuck(p, h); }
    FrozenIsStuck(p);
    if h.firsts == 0 {
      var id :| id in Having(p.stages, HoldsConnection);
      assert id in p.stages && !p.stages[id].Done?;
    }
  }

  lemma ShapedIsStuck(p: Process, h: Shape)
    requires Shaped(p, h) && !ConnectionFree(p)
    requires Having(p.apart, ApartHoldsConnection) == {} && Having(p.paired, HoldsSecond) == {}
    requires Having(p.stages, HoldsConnection) == {} || !ThreadFree(p)
    ensures Stuck(p)
  {
    forall id | id in p.stages ensures !CanAdvance(p, id) {
      assert id in Having(p.stages, HoldsConnection) || p.stages[id].NeedsConnection?;
    }
    forall id | id in p.apart ensures !CanAdvanceApart(p, id) && !ApartHoldsConnection(p.apart[id]) {
      assert id !in Having(p.apart, ApartHoldsConnection);
    }
    forall id | id in p.paired ensures !CanAdvancePair(p, id) && !p.paired[id].BothAgain? {
      assert id !in Having(p.paired, HoldsSecond);
    }
  }

  /** The connections taken: by jobs of two as far as they go, by requests for the rest. */
  lemma ConnectionsKept(start: Process, firsts: nat) returns (p: Process, h: Shape)
    requires Shaped(start, NOBODY) && start.pool.threads >= 1
    requires firsts <= start.pairs && firsts <= start.pool.connections <= firsts + start.limiter.max
    ensures Reaches(start, p) && Shaped(p, h) && SameSettings(start, p)
    ensures h == Shape(start.pool.connections - firsts, 0, 0, 0, firsts, 0)
  {
    var again := start.pool.connections - firsts;
    p, h := Fill(start, again, 0, 0, again);
    BothsAtMost(p, h);
    p := AddPairs(start, p, h, firsts);
    h := h.(firsts := firsts);
  }

  /** And every thread: by requests as far as they go, by checks for the rest. */
  lemma ThreadsKept(start: Process, p: Process, h: Shape, holding: nat) returns (q: Process, g: Shape)
    requires Reaches(start, p) && Shaped(p, h) && h.holding == h.checks == h.jobs == 0
    requires holding <= p.pool.threads <= holding + p.others && h.again + holding <= p.limiter.max
    ensures Reaches(start, q) && Shaped(q, g) && SameSettings(p, q)
    ensures g == h.(holding := holding, checks := p.pool.threads - holding)
  {
    q := AddRequests(start, p, h, holding);
    g := h.(holding := holding);
    q := AddChecks(start, q, g, p.pool.threads - holding);
    g := g.(checks := p.pool.threads - holding);
  }

  lemma FreezeForms(max: nat, queue: nat, pool: Pool, others: nat, pairs: nat) returns (p: Process)
    requires pool.threads >= 1 && pool.connections >= 1 && CanFreeze(max, pool, others, pairs)
    ensures Reaches(Initial(max, queue, pool, others, pairs), p) && Frozen(p)
  {
    var start := Initial(max, queue, pool, others, pairs);
    StartIsShaped(max, queue, pool, others, pairs);
    var firsts := if pairs >= pool.connections then pool.connections else pairs;
    var h;
    p, h := ConnectionsKept(start, firsts);
    if h.again > 0 {
      var holding := if max - h.again >= pool.threads then pool.threads else max - h.again;
      p, h := ThreadsKept(start, p, h, holding);
    }
    ShapedFreezes(p, h);
  }

  /** The whole process can freeze, in some run, exactly so. */
  lemma FreezesExactly(max: nat, queue: nat, pool: Pool, others: nat, pairs: nat)
    requires pool.threads >= 1 && pool.connections >= 1
    ensures (exists p :: Reaches(Initial(max, queue, pool, others, pairs), p) && Frozen(p))
       <==> CanFreeze(max, pool, others, pairs)
  {
    var start := Initial(max, queue, pool, others, pairs);
    if p :| Reaches(start, p) && Frozen(p) {
      ReachedIsSound(max, queue, pool, others, pairs, p);
      FreezeNeeds(p);
    }
    if CanFreeze(max, pool, others, pairs) {
      var p := FreezeForms(max, queue, pool, others, pairs);
    }
  }

  /** The limiter's promise: under accepted settings the freeze cannot form, for any number of
      threads, and however many uncounted users of one connection there are. */
  lemma AcceptedNeverFreezes(poolSize: nat, overflow: nat, maxInFlight: nat, queue: nat, threads: nat, others: nat, p: Process)
    requires threads >= 1 && SettingsAccepted(poolSize, overflow, maxInFlight)
    requires Reaches(Initial(maxInFlight, queue, Pool(threads, poolSize + overflow), others, 0), p)
    ensures !Frozen(p)
  {
    FreezesExactly(maxInFlight, queue, Pool(threads, poolSize + overflow), others, 0);
  }

  /** Jobs that take a second connection beside their first can undo it: under accepted settings
      the process can freeze exactly when those jobs alone can take every connection, or make up
      what the limit leaves and find every thread taken too. */
  lemma AcceptedFreezesExactly(poolSize: nat, overflow: nat, maxInFlight: nat, queue: nat, threads: nat, others: nat, pairs: nat)
    requires threads >= 1 && SettingsAccepted(poolSize, overflow, maxInFlight)
    ensures var spare := poolSize + overflow - maxInFlight;
            (exists p :: Reaches(Initial(maxInFlight, queue, Pool(threads, poolSize + overflow), others, pairs), p) && Frozen(p))
            <==> pairs >= poolSize + overflow || (pairs >= spare && pairs + others >= spare + threads)
  {
    FreezesExactly(maxInFlight, queue, Pool(threads, poolSize + overflow), others, pairs);
  }

  /** Where it cannot freeze, in every state the process reaches with work under way some step
      brings it on, and each is one of finitely many left. */
  lemma NoFreeze(max: nat, queue: nat, pool: Pool, others: nat, pairs: nat, p: Process)
    requires pool.threads >= 1 && pool.connections >= 1 && !CanFreeze(max, pool, others, pairs)
    requires Reaches(Initial(max, queue, pool, others, pairs), p) && WorkUnderWay(p)
    ensures exists e :: Useful(p, e) && WorkLeft(Step(p, e)) == WorkLeft(p) - 1
  {
    FreezesExactly(max, queue, pool, others, pairs);
    assert !Frozen(p);
    var e :| Useful(p, e);
    UsefulStepsCount(p, e);
  }
}

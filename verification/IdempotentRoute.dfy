/**
 The store's methods and the route's handler as they are written: one command after another,
 with whatever the rest of the world does in between. Each method ends in the state the
 protocol's atomic steps give, so every theorem about runs of the protocol is about this code.
 */
module IdempotentRoute {
  import opened Wrappers
  import opened IdempotencyRecords
  import opened IdempotencyKeys
  import opened IdempotencyProtocol

  datatype Claim = Proceed | Replays(response: StoredResponse) | IsInFlight | OtherBody

  datatype EndpointOutcome = Returns(response: Response) | Raises | IsCancelled

  datatype HttpRequest = HttpRequest(method_: string, path: string, credential: string, key: Option<string>, body: string)

  datatype Reply =
    | Unguarded(outcome: EndpointOutcome)   // no key, or a method the header says nothing for
    | InvalidKey                            // 422 idempotency_key_invalid
    | Guarded(answer: Answer)

  predicate Involves(e: Event, rid: Rid) {
    !e.Tick? && e.rid == rid
  }

  /** What happens meanwhile: steps of anybody but `rid`. */
  predicate Others(events: seq<Event>, rid: Rid) {
    forall i :: 0 <= i < |events| ==> !Involves(events[i], rid)
  }

  /** The steps of a schedule that are `rid`'s own, in order. */
  function Mine(events: seq<Event>, rid: Rid): seq<Event> {
    if events == [] then []
    else (if Involves(events[0], rid) then [events[0]] else []) + Mine(events[1..], rid)
  }

  lemma {:induction false} MineConcat(a: seq<Event>, b: seq<Event>, rid: Rid)
    ensures Mine(a + b, rid) == Mine(a, rid) + Mine(b, rid)
    decreases a
  {
    if a == [] {
      assert a + b == b;
    } else {
      assert (a + b)[0] == a[0] && (a + b)[1..] == a[1..] + b;
      MineConcat(a[1..], b, rid);
    }
  }

  lemma {:induction false} OthersAreNotMine(events: seq<Event>, rid: Rid)
    requires Others(events, rid)
    ensures Mine(events, rid) == []
    decreases events
  {
    if events != [] {
      OthersAreNotMine(events[1..], rid);
    }
  }

  lemma {:induction false} OthersLeaveMeAlone(s: State, events: seq<Event>, rid: Rid)
    requires Others(events, rid) && rid in s.requests
    ensures rid in Run(s, events).requests && Run(s, events).requests[rid] == s.requests[rid]
    decreases events
  {
    if events != [] {
      var e := events[0];
      assert !Involves(e, rid);
      assert rid in Step(s, e).requests && Step(s, e).requests[rid] == s.requests[rid];
      OthersLeaveMeAlone(Step(s, e), events[1..], rid);
    }
  }

  /** Our step, then theirs, appended to a schedule already run. */
  lemma Extend(start: State, schedule: seq<Event>, more: seq<Event>, rid: Rid)
    ensures Run(start, schedule + more) == Run(Run(start, schedule), more)
    ensures Mine(schedule + more, rid) == Mine(schedule, rid) + Mine(more, rid)
  {
    RunConcat(start, schedule, more);
    MineConcat(schedule, more, rid);
  }

  lemma Pair(s: State, a: Event, b: Event, rid: Rid)
    ensures Run(s, [a, b]) == Step(Step(s, a), b)
    ensures Involves(a, rid) && Involves(b, rid) ==> Mine([a, b], rid) == [a, b]
  {
    assert [a, b][1..] == [b];
    assert Run(Step(s, a), [b]) == Step(Step(s, a), b);
    assert Involves(b, rid) ==> Mine([b], rid) == [b];
  }

  class RedisIdempotencyStore {
    var site: State

    constructor ()
      ensures site == Empty
    {
      site := Empty;
    }

    method Meanwhile(others: seq<Event>)
      modifies this
      ensures site == Run(old(site), others)
    {
      var i := 0;
      while i < |others|
        invariant 0 <= i <= |others|
        invariant site == Run(old(site), others[..i])
      {
        site := Step(site, others[i]);
        assert others[..i + 1] == others[..i] + [others[i]];
        RunConcat(old(site), others[..i], [others[i]]);
        i := i + 1;
      }
      assert others[..i] == others;
    }

    /** claim: SET NX with a 60-second life, and when that finds a key, GET. */
    method Claim(rid: Rid, setFault: Fault, between: seq<Event>, getFault: Fault)
      returns (claim: Option<Claim>, ghost schedule: seq<Event>)
      requires rid in site.requests && site.requests[rid].phase.Arrived?
      requires Others(between, rid)
      modifies this
      ensures schedule == [SetNx(rid, setFault)] || schedule == [SetNx(rid, setFault)] + between + [Get(rid, getFault)]
      ensures site == Run(old(site), schedule)
      ensures rid in site.requests
      ensures site.requests[rid].phase == match claim {
                case None => Ended(Unavailable)
                case Some(Proceed) => Running
                case Some(Replays(stored)) => Ended(Replayed(stored))
                case Some(IsInFlight) => Ended(StillRunning)
                case Some(OtherBody) => Ended(BodyChanged) }
      ensures !setFault.Fine? ==> claim == None
      ensures setFault.Fine? && Lookup(old(site), old(site.requests[rid].key)) == None ==>
                && claim == Some(Proceed)
                && Lookup(site, old(site.requests[rid].key))
                   == Some(Entry(InFlight(old(site.requests[rid].fingerprint)), site.now + 60 * 1000, rid))
      ensures setFault.Fine? && Lookup(old(site), old(site.requests[rid].key)).Some? ==>
                if !getFault.Fine? then claim == None
                else match Lookup(site, old(site.requests[rid].key)) {
                       case None => claim == Some(Proceed)
                       case Some(seen) =>
                         if seen.record.fingerprint != old(site.requests[rid].fingerprint) then claim == Some(OtherBody)
                         else if seen.record.InFlight? then claim == Some(IsInFlight)
                         else claim == Some(Replays(seen.record.response)) }
    {
      var r := site.requests[rid];
      var free := Lookup(site, r.key) == None;
      if free && !setFault.FailsBefore? {
        site := site.(store := site.store[r.key := Entry(InFlight(r.fingerprint), site.now + IN_FLIGHT_TTL, rid)]);
        r := r.(wrote := true);
      }
      schedule := [SetNx(rid, setFault)];
      if !setFault.Fine? {
        site := Put(site, rid, End(r, Unavailable));
        assert site == Step(old(site), SetNx(rid, setFault));
        return None, schedule;
      }
      if free {
        site := Put(site, rid, r.(phase := Running, startedAt := site.now));
        assert site == Step(old(site), SetNx(rid, setFault));
        return Some(Proceed), schedule;
      }
      site := Put(site, rid, r.(phase := Refused));
      assert site == Step(old(site), SetNx(rid, setFault));
      ghost var refused := site;
      Meanwhile(between);
      OthersLeaveMeAlone(refused, between, rid);
      schedule := schedule + between + [Get(rid, getFault)];
      RunConcat(old(site), [SetNx(rid, setFault)] + between, [Get(rid, getFault)]);
      RunConcat(old(site), [SetNx(rid, setFault)], between);
      if !getFault.Fine? {
        site := Put(site, rid, End(site.requests[rid], Unavailable));
        return None, schedule;
      }
      match Lookup(site, r.key)
      case None =>
        site := Put(site, rid, site.requests[rid].(phase := Running, startedAt := site.now));
        return Some(Proceed), schedule;
      case Some(entry) =>
        if entry.record.fingerprint != r.fingerprint {
          site := Put(site, rid, End(site.requests[rid], BodyChanged));
          return Some(OtherBody), schedule;
        } else if entry.record.InFlight? {
          site := Put(site, rid, End(site.requests[rid], StillRunning));
          return Some(IsInFlight), schedule;
        } else {
          site := Put(site, rid, End(site.requests[rid], Replayed(entry.record.response)));
          return Some(Replays(entry.record.response)), schedule;
        }
    }

    /** complete: SET, whoever holds the key, with a 24-hour life. */
    method Complete(rid: Rid, response: Response, fault: Fault) returns (answer: Answer)
      requires rid in site.requests && site.requests[rid].phase == Returned(response) && Storable(response)
      modifies this
      ensures site == Step(old(site), Finish(rid, fault))
      ensures rid in site.requests && site.requests[rid].phase == Ended(answer)
    {
      var r := site.requests[rid];
      if response.body.NotUtf8? {
        answer := Crashed;
      } else {
        if !fault.FailsBefore? {
          var record := Done(r.fingerprint, ToStored(response));
          site := site.(store := site.store[r.key := Entry(record, site.now + COMPLETED_TTL, rid)]);
          r := r.(wrote := true);
        }
        answer := if fault.Fine? then Own(response) else Unavailable;
      }
      site := Put(site, rid, End(r, answer));
    }

    /** release: DEL, whoever holds the key; never raises. */
    method Release(rid: Rid, fault: Fault) returns (answer: Answer)
      requires rid in site.requests
      requires match site.requests[rid].phase
               case Returned(response) => !Storable(response)
               case Raised => true
               case _ => false
      modifies this
      ensures site == Step(old(site), Finish(rid, fault))
      ensures rid in site.requests && site.requests[rid].phase == Ended(answer)
    {
      var r := site.requests[rid];
      answer := if r.phase.Raised? then OwnError else Own(r.phase.result);
      if !fault.FailsBefore? {
        site := site.(store := site.store - {r.key});
      }
      site := Put(site, rid, End(r, answer));
    }

    /** The endpoint at work, then its one complete or release; a cancelled run does neither. */
    method RunEndpoint(rid: Rid, outcome: EndpointOutcome, during: seq<Event>, finishFault: Fault)
      returns (answer: Answer, ghost schedule: seq<Event>)
      requires rid in site.requests && site.requests[rid].phase.Running? && Others(during, rid)
      modifies this
      ensures schedule == during + RunSteps(rid, outcome, finishFault)
      ensures site == Run(old(site), schedule)
      ensures rid in site.requests && site.requests[rid].phase == Ended(answer)
      ensures AnswersTheRun(outcome, finishFault, answer)
    {
      Meanwhile(during);
      OthersLeaveMeAlone(old(site), during, rid);
      RunConcat(old(site), during, RunSteps(rid, outcome, finishFault));
      schedule := during + RunSteps(rid, outcome, finishFault);
      match outcome {
        case IsCancelled =>
          site := Put(site, rid, End(site.requests[rid], Lost));
          answer := Lost;
        case Raises =>
          Pair(site, Raise(rid), Finish(rid, finishFault), rid);
          site := Put(site, rid, site.requests[rid].(phase := Raised));
          answer := Release(rid, finishFault);
        case Returns(response) =>
          Pair(site, Return(rid, response), Finish(rid, finishFault), rid);
          site := Put(site, rid, site.requests[rid].(phase := Returned(response), produced := Some(response)));
          if Storable(response) {
            answer := Complete(rid, response, finishFault);
          } else {
            answer := Release(rid, finishFault);
          }
      }
    }

    /** The request arrives and claims its key. */
    method ArriveAndClaim(rid: Rid, storedKey: string, fingerprint: string, setFault: Fault, between: seq<Event>, getFault: Fault)
      returns (proceed: bool, ghost schedule: seq<Event>)
      requires rid !in site.requests && Others(between, rid)
      modifies this
      ensures site == Run(old(site), schedule)
      ensures ClaimSteps(Mine(schedule, rid), rid, storedKey, fingerprint, setFault, getFault)
      ensures Keyed(site, rid, storedKey, fingerprint)
      ensures if proceed then site.requests[rid].phase.Running? else site.requests[rid].phase.Ended?
      ensures ClaimLeaves(Lookup(old(site), storedKey).Some?, Lookup(site, storedKey), setFault, getFault, fingerprint,
                          site.requests[rid].phase)
    {
      ghost var arrive := Arrive(rid, storedKey, fingerprint);
      site := Put(site, rid, Request(storedKey, fingerprint, Arrived, 0, None, false));
      assert site == Run(old(site), [arrive]);
      ghost var arrived := site;
      ghost var claimed;
      var claim;
      claim, claimed := Claim(rid, setFault, between, getFault);
      schedule := [arrive] + claimed;
      Extend(old(site), [arrive], claimed, rid);
      ClaimIsMine(rid, setFault, between, getFault);
      RunKeepsIdentity(arrived, claimed, rid);
      proceed := claim == Some(Proceed);
    }

    /** Claim; then, only if told PROCEED, run and finish. */
    method Guard(
      rid: Rid, storedKey: string, fingerprint: string, outcome: EndpointOutcome,
      setFault: Fault, between: seq<Event>, getFault: Fault, during: seq<Event>, finishFault: Fault)
      returns (answer: Answer, ghost claimed: seq<Event>, ghost finished: seq<Event>)
      requires rid !in site.requests && Others(between, rid) && Others(during, rid)
      modifies this
      ensures site == Run(Run(old(site), claimed), finished)
      ensures Keyed(site, rid, storedKey, fingerprint) && site.requests[rid].phase == Ended(answer)
      ensures ClaimSteps(Mine(claimed, rid), rid, storedKey, fingerprint, setFault, getFault)
      ensures RunsOnlyOnProceed(Run(old(site), claimed), Mine(finished, rid), rid, outcome, finishFault)
      ensures Says(old(site), Run(old(site), claimed), rid, storedKey, fingerprint, outcome, setFault, getFault, finishFault, answer)
    {
      var proceed;
      proceed, claimed := ArriveAndClaim(rid, storedKey, fingerprint, setFault, between, getFault);
      if !proceed {
        return site.requests[rid].phase.answer, claimed, [];
      }
      ghost var proceeded := site;
      answer, finished := RunEndpoint(rid, outcome, during, finishFault);
      RunIsMine(rid, outcome, during, finishFault);
      RunKeepsIdentity(proceeded, finished, rid);
    }

    /** The route's handler, from the header to the answer. Its own steps are exactly the claim's
        and then, if and only if the claim left it running, the endpoint's outcome and one
        complete or release; a cancelled run does neither. */
    method Handle(
      rid: Rid, request: HttpRequest, hash: string -> string, outcome: EndpointOutcome,
      setFault: Fault, between: seq<Event>, getFault: Fault, during: seq<Event>, finishFault: Fault)
      returns (reply: Reply, ghost claimed: seq<Event>, ghost finished: seq<Event>)
      requires rid !in site.requests && Others(between, rid) && Others(during, rid)
      modifies this
      ensures site == Run(Run(old(site), claimed), finished)
      ensures request.key == None || request.method_ !in {"POST", "PATCH"} ==>
                reply == Unguarded(outcome) && claimed == finished == []
      ensures request.key.Some? && request.method_ in {"POST", "PATCH"} && !UsableKey(request.key.value) ==>
                reply == InvalidKey && claimed == finished == []
      ensures request.key.Some? && request.method_ in {"POST", "PATCH"} ==>
                (reply == InvalidKey <==>
                 !(8 <= |request.key.value| <= 128
                   && forall c :: c in request.key.value ==>
                        c in "._:-" || '0' <= c <= '9' || 'A' <= c <= 'Z' || 'a' <= c <= 'z'))
      ensures request.key.Some? && request.method_ in {"POST", "PATCH"} && UsableKey(request.key.value) ==>
                var storedKey := StorageKey(hash, Scope(request.credential, request.method_, request.path, request.key.value));
                && reply.Guarded?
                && Keyed(site, rid, storedKey, hash(request.body)) && site.requests[rid].phase == Ended(reply.answer)
                && ClaimSteps(Mine(claimed, rid), rid, storedKey, hash(request.body), setFault, getFault)
                && RunsOnlyOnProceed(Run(old(site), claimed), Mine(finished, rid), rid, outcome, finishFault)
                && Says(old(site), Run(old(site), claimed), rid, storedKey, hash(request.body), outcome,
                        setFault, getFault, finishFault, reply.answer)
      ensures request.key.Some? && request.method_ in {"POST", "PATCH"} && UsableKey(request.key.value)
              && setFault.Fine? && getFault.Fine? ==>
                var storedKey := StorageKey(hash, Scope(request.credential, request.method_, request.path, request.key.value));
                var seen := Lookup(Run(old(site), claimed), storedKey);
                Lookup(old(site), storedKey).Some? && seen.Some? ==>
                  if hash(request.body) != seen.value.record.fingerprint then reply == Guarded(BodyChanged)
                  else if seen.value.record.InFlight? then reply == Guarded(StillRunning)
                  else reply == Guarded(Replayed(seen.value.record.response))
    {
      claimed, finished := [], [];
      if request.key.Some? {
        KeyByItsCharacters(request.key.value);
      }
      if request.key == None || request.method_ !in GUARDED_METHODS {
        return Unguarded(outcome), claimed, finished;
      }
      if !UsableKey(request.key.value) {
        return InvalidKey, claimed, finished;
      }
      var storedKey := StorageKey(hash, Scope(request.credential, request.method_, request.path, request.key.value));
      var answer;
      answer, claimed, finished :=
        Guard(rid, storedKey, hash(request.body), outcome, setFault, between, getFault, during, finishFault);
      reply := Guarded(answer);
    }
  }

  /** The request is there, under this key and body. */
  predicate Keyed(s: State, rid: Rid, storedKey: string, fingerprint: string) {
    rid in s.requests && s.requests[rid].key == storedKey && s.requests[rid].fingerprint == fingerprint
  }

  /** What the caller of a run is told: the endpoint's own answer or error, unless its record could
      not be kept. */
  ghost predicate AnswersTheRun(outcome: EndpointOutcome, finishFault: Fault, answer: Answer) {
    match outcome
    case IsCancelled => answer == Lost
    case Raises => answer == OwnError
    case Returns(response) =>
      if response.body.Streaming? || response.status >= 500 then answer == Own(response)
      else if response.body.NotUtf8? then answer == Crashed
      else if finishFault.Fine? then answer == Own(response)
      else answer == Unavailable
  }

  /** What a claim leaves the request at: a free key lets it in, a taken one is told by the entry
      that GET sees, and a store that fails is told at once. */
  ghost predicate ClaimLeaves(taken: bool, seen: Option<Entry>, setFault: Fault, getFault: Fault, fingerprint: string, phase: Phase) {
    if !setFault.Fine? || (taken && !getFault.Fine?) then phase == Ended(Unavailable)
    else if !taken || seen == None then phase.Running?
    else if seen.value.record.fingerprint != fingerprint then phase == Ended(BodyChanged)
    else if seen.value.record.InFlight? then phase == Ended(StillRunning)
    else phase == Ended(Replayed(seen.value.record.response))
  }

  /** The whole handler: from the site it finds, by way of the site its claim leaves, to its answer. */
  ghost predicate Says(
    found: State, claimed: State, rid: Rid, storedKey: string, fingerprint: string,
    outcome: EndpointOutcome, setFault: Fault, getFault: Fault, finishFault: Fault, answer: Answer)
  {
    && rid in claimed.requests
    && var phase := claimed.requests[rid].phase;
    && ClaimLeaves(Lookup(found, storedKey).Some?, Lookup(claimed, storedKey), setFault, getFault, fingerprint, phase)
    && (if phase.Running? then AnswersTheRun(outcome, finishFault, answer) else phase == Ended(answer))
  }

  /** The steps a claim takes: SET NX, and GET where that found a key. */
  ghost predicate ClaimSteps(mine: seq<Event>, rid: Rid, storedKey: string, fingerprint: string, setFault: Fault, getFault: Fault) {
    || mine == [Arrive(rid, storedKey, fingerprint), SetNx(rid, setFault)]
    || mine == [Arrive(rid, storedKey, fingerprint), SetNx(rid, setFault), Get(rid, getFault)]
  }

  /** What follows the claim: a run's steps exactly when the claim left the request running, the
      PROCEED of the source; otherwise nothing. */
  ghost predicate RunsOnlyOnProceed(claimed: State, mine: seq<Event>, rid: Rid, outcome: EndpointOutcome, finishFault: Fault) {
    && rid in claimed.requests
    && mine == if claimed.requests[rid].phase.Running? then RunSteps(rid, outcome, finishFault) else []
  }

  /** The steps a run takes after PROCEED. */
  function RunSteps(rid: Rid, outcome: EndpointOutcome, finishFault: Fault): seq<Event> {
    match outcome
    case Returns(response) => [Return(rid, response), Finish(rid, finishFault)]
    case Raises => [Raise(rid), Finish(rid, finishFault)]
    case IsCancelled => [Cancel(rid)]
  }

  lemma RunIsMine(rid: Rid, outcome: EndpointOutcome, during: seq<Event>, finishFault: Fault)
    requires Others(during, rid)
    ensures Mine(during + RunSteps(rid, outcome, finishFault), rid) == RunSteps(rid, outcome, finishFault)
  {
    OthersAreNotMine(during, rid);
    MineConcat(during, RunSteps(rid, outcome, finishFault), rid);
    if !outcome.IsCancelled? {
      Pair(Empty, RunSteps(rid, outcome, finishFault)[0], Finish(rid, finishFault), rid);
    }
  }

  lemma ClaimIsMine(rid: Rid, setFault: Fault, between: seq<Event>, getFault: Fault)
    requires Others(between, rid)
    ensures Mine([SetNx(rid, setFault)], rid) == [SetNx(rid, setFault)]
    ensures Mine([SetNx(rid, setFault)] + between + [Get(rid, getFault)], rid)
            == [SetNx(rid, setFault), Get(rid, getFault)]
  {
    OthersAreNotMine(between, rid);
    MineConcat([SetNx(rid, setFault)] + between, [Get(rid, getFault)], rid);
    MineConcat([SetNx(rid, setFault)], between, rid);
  }

  lemma StepKeepsIdentity(s: State, e: Event, rid: Rid)
    requires rid in s.requests
    ensures rid in Step(s, e).requests
    ensures Step(s, e).requests[rid].key == s.requests[rid].key
    ensures Step(s, e).requests[rid].fingerprint == s.requests[rid].fingerprint
  {
    match e
    case SetNx(other, fault) => if other in s.requests { SetNxIsLocal(s, other, fault); }
    case Get(other, fault) => if other in s.requests { GetIsLocal(s, other, fault); }
    case Finish(other, fault) => if other in s.requests { FinishIsLocal(s, other, fault); }
    case _ =>
  }

  lemma {:induction false} RunKeepsIdentity(s: State, events: seq<Event>, rid: Rid)
    requires rid in s.requests
    ensures rid in Run(s, events).requests
    ensures Run(s, events).requests[rid].key == s.requests[rid].key
    ensures Run(s, events).requests[rid].fingerprint == s.requests[rid].fingerprint
    decreases events
  {
    if events != [] {
      StepKeepsIdentity(s, events[0], rid);
      RunKeepsIdentity(Step(s, events[0]), events[1..], rid);
    }
  }
}

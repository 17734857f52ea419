/**
 The claim / run / complete / release protocol over one shared store
 (RedisIdempotencyStore in app/core/idempotency.py, the handler in
 app/core/idempotent_route.py), after draft-ietf-httpapi-idempotency-key-header-07.

 Every Redis command is one atomic step, so the SET NX of a claim and the GET after it can be
 separated by anything: other requests, other processes, time, expiry. A command may fail
 before it takes effect, or take effect and lose its reply.
 */
module IdempotencyProtocol {
  import opened Wrappers
  import opened IdempotencyRecords

  type Rid = nat

  /** `writer` is the request whose SET wrote the entry. Redis does not hold it and no branch
      reads it; it is what lets us say whose marker a command touches. */
  datatype Entry = Entry(record: Record, expires: int, writer: Rid)

  datatype Answer =
    | Own(response: Response)          // the endpoint's own response
    | OwnError                         // whatever the endpoint raised
    | Replayed(stored: StoredResponse)
    | StillRunning                     // 409 idempotency_key_in_flight
    | BodyChanged                      // 422 idempotency_key_reused
    | Unavailable                      // 503 idempotency_unavailable
    | Crashed                          // the body could not be decoded for storing
    | Lost                             // cancelled, or its process died

  datatype Phase =
    | Arrived                          // about to SET NX
    | Refused                          // SET NX found a key; about to GET
    | Running                          // PROCEED: the endpoint is at work
    | Returned(result: Response)       // about to complete or release
    | Raised                           // about to release
    | Ended(answer: Answer)

  /** `startedAt` is when it was told PROCEED, `produced` what its endpoint returned,
      `wrote` whether a SET of its own landed. */
  datatype Request = Request(
    key: string, fingerprint: string, phase: Phase,
    startedAt: int, produced: Option<Response>, wrote: bool)

  datatype State = State(now: int, store: map<string, Entry>, requests: map<Rid, Request>)

  datatype Fault = Fine | FailsBefore | FailsAfter

  datatype Event =
    | Arrive(rid: Rid, key: string, fingerprint: string)
    | SetNx(rid: Rid, fault: Fault)
    | Get(rid: Rid, fault: Fault)
    | Return(rid: Rid, response: Response)
    | Raise(rid: Rid)
    | Finish(rid: Rid, fault: Fault)   // the complete or release that ends a run
    | Cancel(rid: Rid)                 // cancelled mid-run, or the process died
    | Tick(millis: nat)

  const Empty := State(0, map[], map[])

  /** What a command sees at `key`: a key past its expiry is gone. */
  function Lookup(s: State, key: string): Option<Entry> {
    if key in s.store && s.now < s.store[key].expires then Some(s.store[key]) else None
  }

  /** Between PROCEED and the end of its complete or release. */
  predicate IsRunning(s: State, rid: Rid) {
    rid in s.requests &&
    (s.requests[rid].phase.Running? || s.requests[rid].phase.Returned? || s.requests[rid].phase.Raised?)
  }

  function End(r: Request, answer: Answer): Request {
    r.(phase := Ended(answer))
  }

  function Put(s: State, rid: Rid, r: Request): State {
    s.(requests := s.requests[rid := r])
  }

  // ---- one atomic step ----------------------------------------------------------------

  function AfterSetNx(s: State, rid: Rid, fault: Fault): State
    requires rid in s.requests
  {
    var r := s.requests[rid];
    if fault.FailsBefore? then Put(s, rid, End(r, Unavailable))
    else if Lookup(s, r.key).Some? then
      if fault.FailsAfter? then Put(s, rid, End(r, Unavailable)) else Put(s, rid, r.(phase := Refused))
    else
      var written := s.(store := s.store[r.key := Entry(InFlight(r.fingerprint), s.now + IN_FLIGHT_TTL, rid)]);
      if fault.FailsAfter? then Put(written, rid, End(r, Unavailable).(wrote := true))
      else Put(written, rid, r.(phase := Running, startedAt := s.now, wrote := true))
  }

  function AfterGet(s: State, rid: Rid, fault: Fault): State
    requires rid in s.requests
  {
    var r := s.requests[rid];
    if !fault.Fine? then Put(s, rid, End(r, Unavailable))
    else
      match Lookup(s, r.key)
      case None => Put(s, rid, r.(phase := Running, startedAt := s.now))
      case Some(entry) =>
        if entry.record.fingerprint != r.fingerprint then Put(s, rid, End(r, BodyChanged))
        else if entry.record.InFlight? then Put(s, rid, End(r, StillRunning))
        else Put(s, rid, End(r, Replayed(entry.record.response)))
  }

  function AfterComplete(s: State, rid: Rid, response: Response, fault: Fault): State
    requires rid in s.requests && Storable(response)
  {
    var r := s.requests[rid];
    if response.body.NotUtf8? then Put(s, rid, End(r, Crashed))
    else if fault.FailsBefore? then Put(s, rid, End(r, Unavailable))
    else
      var record := Done(r.fingerprint, ToStored(response));
      var written := s.(store := s.store[r.key := Entry(record, s.now + COMPLETED_TTL, rid)]);
      var answer := if fault.FailsAfter? then Unavailable else Own(response);
      Put(written, rid, End(r, answer).(wrote := true))
  }

  /** DEL, whoever the key belongs to. A failure is swallowed. */
  function AfterRelease(s: State, rid: Rid, answer: Answer, fault: Fault): State
    requires rid in s.requests
  {
    var r := s.requests[rid];
    var deleted := if fault.FailsBefore? then s else s.(store := s.store - {r.key});
    Put(deleted, rid, End(r, answer))
  }

  function AfterFinish(s: State, rid: Rid, fault: Fault): State
    requires rid in s.requests
  {
    match s.requests[rid].phase
    case Returned(response) =>
      if Storable(response) then AfterComplete(s, rid, response, fault)
      else AfterRelease(s, rid, Own(response), fault)
    case Raised => AfterRelease(s, rid, OwnError, fault)
    case _ => s
  }

  /** One step. An event that cannot happen in `s` changes nothing. */
  function Step(s: State, e: Event): State {
    match e
    case Arrive(rid, key, fingerprint) =>
      if rid in s.requests then s
      else Put(s, rid, Request(key, fingerprint, Arrived, 0, None, false))
    case SetNx(rid, fault) =>
      if rid in s.requests && s.requests[rid].phase.Arrived? then AfterSetNx(s, rid, fault) else s
    case Get(rid, fault) =>
      if rid in s.requests && s.requests[rid].phase.Refused? then AfterGet(s, rid, fault) else s
    case Return(rid, response) =>
      if rid in s.requests && s.requests[rid].phase.Running? then
        Put(s, rid, s.requests[rid].(phase := Returned(response), produced := Some(response)))
      else s
    case Raise(rid) =>
      if rid in s.requests && s.requests[rid].phase.Running? then
        Put(s, rid, s.requests[rid].(phase := Raised))
      else s
    case Finish(rid, fault) =>
      if rid in s.requests then AfterFinish(s, rid, fault) else s
    case Cancel(rid) =>
      if rid in s.requests && !s.requests[rid].phase.Ended? then Put(s, rid, End(s.requests[rid], Lost)) else s
    case Tick(millis) => s.(now := s.now + millis)
  }

  /** Any interleaving: the steps of a list, one after another. */
  function Run(s: State, events: seq<Event>): State
    decreases events
  {
    if events == [] then s else Run(Step(s, events[0]), events[1..])
  }

  lemma {:induction false} RunConcat(s: State, a: seq<Event>, b: seq<Event>)
    ensures Run(s, a + b) == Run(Run(s, a), b)
    decreases a
  {
    if a == [] {
      assert a + b == b;
    } else {
      assert (a + b)[0] == a[0] && (a + b)[1..] == a[1..] + b;
      RunConcat(Step(s, a[0]), a[1..], b);
    }
  }

  // ---- replay soundness: every interleaving, expiry and failure --------------------------

  /** Request `q` really ran on this key and body and its storable answer is `stored`. */
  ghost predicate CameFrom(s: State, q: Rid, key: string, fingerprint: string, stored: StoredResponse) {
    && q in s.requests
    && s.requests[q].key == key
    && s.requests[q].fingerprint == fingerprint
    && s.requests[q].produced.Some?
    && var response := s.requests[q].produced.value;
       response.body.Text? && response.status < MAX_STORABLE_STATUS && stored == ToStored(response)
  }

  /** Request `q`, on this key, landed a SET of its own. */
  ghost predicate Wrote(s: State, q: Rid, key: string, fingerprint: string) {
    q in s.requests && s.requests[q].key == key && s.requests[q].fingerprint == fingerprint && s.requests[q].wrote
  }

  ghost predicate EntrySound(s: State, key: string)
    requires key in s.store
  {
    var entry := s.store[key];
    && Wrote(s, entry.writer, key, entry.record.fingerprint)
    && (entry.record.Done? ==> CameFrom(s, entry.writer, key, entry.record.fingerprint, entry.record.response))
  }

  ghost predicate AnswerSound(s: State, rid: Rid)
    requires rid in s.requests
  {
    var r := s.requests[rid];
    match r.phase
    case Returned(response) => r.produced == Some(response)
    case Ended(Replayed(stored)) => exists q :: CameFrom(s, q, r.key, r.fingerprint, stored)
    case Ended(StillRunning) => exists q :: Wrote(s, q, r.key, r.fingerprint)
    case Ended(BodyChanged) => exists q, other :: other != r.fingerprint && Wrote(s, q, r.key, other)
    case Ended(Own(response)) => r.produced == Some(response)
    case _ => true
  }

  ghost predicate Sound(s: State) {
    && (forall key :: key in s.store ==> EntrySound(s, key))
    && (forall rid :: rid in s.requests ==> RequestSound(s, rid))
  }

  /** What a step may do to a request already there: nothing that loses what it did. */
  ghost predicate Keeps(s: State, t: State) {
    forall q :: q in s.requests ==>
      && q in t.requests
      && t.requests[q].key == s.requests[q].key
      && t.requests[q].fingerprint == s.requests[q].fingerprint
      && (s.requests[q].wrote ==> t.requests[q].wrote)
      && (s.requests[q].produced.Some? ==> t.requests[q].produced == s.requests[q].produced)
  }

  ghost predicate RequestSound(s: State, rid: Rid)
    requires rid in s.requests
  {
    var r := s.requests[rid];
    && AnswerSound(s, rid)
    && (r.phase.Arrived? || r.phase.Refused? || r.phase.Running? ==> r.produced == None)
  }

  /** A step of `rid` rewrites that request and, at most, the entry at its key. */
  ghost predicate Local(s: State, t: State, rid: Rid) {
    && rid in s.requests && rid in t.requests
    && t.requests == s.requests[rid := t.requests[rid]]
    && Evolves(s.requests[rid], t.requests[rid])
    && forall key :: key != s.requests[rid].key ==>
         (key in t.store <==> key in s.store) && (key in t.store ==> t.store[key] == s.store[key])
  }

  /** A request keeps its key and body and never loses what it wrote or what it ran. */
  ghost predicate Evolves(before: Request, after: Request) {
    && after.key == before.key
    && after.fingerprint == before.fingerprint
    && (before.wrote ==> after.wrote)
    && (before.produced.Some? ==> after.produced == before.produced)
  }

  lemma SetNxIsLocal(s: State, rid: Rid, fault: Fault)
    requires rid in s.requests
    ensures Local(s, AfterSetNx(s, rid, fault), rid)
  {}

  lemma GetIsLocal(s: State, rid: Rid, fault: Fault)
    requires rid in s.requests
    ensures Local(s, AfterGet(s, rid, fault), rid)
    ensures AfterGet(s, rid, fault).store == s.store
  {}

  lemma FinishIsLocal(s: State, rid: Rid, fault: Fault)
    requires rid in s.requests
    ensures Local(s, AfterFinish(s, rid, fault), rid)
  {}


  lemma CameFromKept(s: State, t: State, q: Rid, key: string, fingerprint: string, stored: StoredResponse)
    requires Keeps(s, t) && CameFrom(s, q, key, fingerprint, stored)
    ensures CameFrom(t, q, key, fingerprint, stored)
  {}

  lemma AnswersKept(s: State, t: State)
    requires Sound(s) && Keeps(s, t)
    ensures forall rid :: rid in s.requests && t.requests[rid].phase == s.requests[rid].phase ==> AnswerSound(t, rid)
  {
    forall rid | rid in s.requests && t.requests[rid].phase == s.requests[rid].phase
      ensures AnswerSound(t, rid)
    {
      var r := s.requests[rid];
      assert RequestSound(s, rid);
      match r.phase
      case Ended(Replayed(stored)) =>
        var q :| CameFrom(s, q, r.key, r.fingerprint, stored);
        CameFromKept(s, t, q, r.key, r.fingerprint, stored);
      case Ended(StillRunning) =>
        var q :| Wrote(s, q, r.key, r.fingerprint);
        assert Wrote(t, q, r.key, r.fingerprint);
      case Ended(BodyChanged) =>
        var q, other :| other != r.fingerprint && Wrote(s, q, r.key, other);
        assert Wrote(t, q, r.key, other);
      case _ =>
    }
  }

  lemma EntriesKept(s: State, t: State)
    requires Sound(s) && Keeps(s, t)
    ensures forall key :: key in s.store && key in t.store && t.store[key] == s.store[key] ==> EntrySound(t, key)
  {
    forall key | key in s.store && key in t.store && t.store[key] == s.store[key]
      ensures EntrySound(t, key)
    {
      assert EntrySound(s, key);
    }
  }

  lemma LocalKeeps(s: State, t: State, rid: Rid)
    requires Sound(s) && Local(s, t, rid)
    requires RequestSound(t, rid) || t.requests[rid] == s.requests[rid]
    requires s.requests[rid].key in t.store ==>
               EntrySound(t, s.requests[rid].key) || (s.requests[rid].key in s.store && t.store[s.requests[rid].key] == s.store[s.requests[rid].key])
    ensures Sound(t)
  {
    assert Keeps(s, t);
    AnswersKept(s, t);
    EntriesKept(s, t);
    forall q | q in t.requests ensures RequestSound(t, q) {
      assert q in s.requests;
      assert RequestSound(s, q);
    }
  }

  lemma SetNxIsSound(s: State, rid: Rid, fault: Fault)
    requires Sound(s) && rid in s.requests && s.requests[rid].phase.Arrived?
    ensures Sound(AfterSetNx(s, rid, fault))
  {
    var t := AfterSetNx(s, rid, fault);
    assert RequestSound(s, rid);
    SetNxIsLocal(s, rid, fault);
    LocalKeeps(s, t, rid);
  }

  lemma GetIsSound(s: State, rid: Rid, fault: Fault)
    requires Sound(s) && rid in s.requests && s.requests[rid].phase.Refused?
    ensures Sound(AfterGet(s, rid, fault))
  {
    var t := AfterGet(s, rid, fault);
    var r := s.requests[rid];
    assert RequestSound(s, rid);
    GetIsLocal(s, rid, fault);
    if fault.Fine? && Lookup(s, r.key).Some? {
      var entry := s.store[r.key];
      assert EntrySound(s, r.key);
      assert Wrote(t, entry.writer, r.key, entry.record.fingerprint);
      if entry.record.Done? {
        assert CameFrom(t, entry.writer, r.key, entry.record.fingerprint, entry.record.response);
      }
    }
    LocalKeeps(s, t, rid);
  }

  lemma CompleteIsSound(s: State, rid: Rid, response: Response, fault: Fault)
    requires Sound(s) && rid in s.requests && s.requests[rid].phase == Returned(response) && Storable(response)
    ensures Sound(AfterComplete(s, rid, response, fault))
  {
    var t := AfterComplete(s, rid, response, fault);
    assert RequestSound(s, rid);
    LocalKeeps(s, t, rid);
  }

  lemma ReleaseIsSound(s: State, rid: Rid, answer: Answer, fault: Fault)
    requires Sound(s) && rid in s.requests
    requires answer == OwnError || (answer.Own? && s.requests[rid].phase == Returned(answer.response))
    ensures Sound(AfterRelease(s, rid, answer, fault))
  {
    var t := AfterRelease(s, rid, answer, fault);
    assert RequestSound(s, rid);
    LocalKeeps(s, t, rid);
  }

  lemma FinishIsSound(s: State, rid: Rid, fault: Fault)
    requires Sound(s) && rid in s.requests
    ensures Sound(AfterFinish(s, rid, fault))
  {
    match s.requests[rid].phase
    case Returned(response) =>
      if Storable(response) {
        CompleteIsSound(s, rid, response, fault);
      } else {
        ReleaseIsSound(s, rid, Own(response), fault);
      }
    case Raised => ReleaseIsSound(s, rid, OwnError, fault);
    case _ =>
  }

  lemma {:induction false} StepIsSound(s: State, e: Event)
    requires Sound(s)
    ensures Sound(Step(s, e))
  {
    var t := Step(s, e);
    match e {
      case Arrive(rid, key, fingerprint) =>
        if rid !in s.requests {
          assert Keeps(s, t);
          AnswersKept(s, t);
          EntriesKept(s, t);
          forall q | q in t.requests ensures RequestSound(t, q) {
            if q != rid { assert RequestSound(s, q); }
          }
        }
      case SetNx(rid, fault) =>
        if rid in s.requests && s.requests[rid].phase.Arrived? { SetNxIsSound(s, rid, fault); }
      case Get(rid, fault) =>
        if rid in s.requests && s.requests[rid].phase.Refused? { GetIsSound(s, rid, fault); }
      case Finish(rid, fault) =>
        if rid in s.requests { FinishIsSound(s, rid, fault); }
      case Tick(millis) =>
        assert Keeps(s, t);
        AnswersKept(s, t);
        EntriesKept(s, t);
        forall q | q in t.requests ensures RequestSound(t, q) {
          assert RequestSound(s, q);
        }
      case _ => OwnStepIsSound(s, e);
    }
  }

  lemma OwnStepIsSound(s: State, e: Event)
    requires Sound(s) && (e.Return? || e.Raise? || e.Cancel?)
    ensures Sound(Step(s, e))
  {
    if e.rid in s.requests {
      assert RequestSound(s, e.rid);
      LocalKeeps(s, Step(s, e), e.rid);
    }
  }

  lemma {:induction false} RunIsSound(s: State, events: seq<Event>)
    requires Sound(s)
    ensures Sound(Run(s, events))
    decreases events
  {
    if events != [] {
      StepIsSound(s, events[0]);
      RunIsSound(Step(s, events[0]), events[1..]);
    }
  }

  /** Replay soundness. Whatever happens (any interleaving, expiry, store failure, crash or
      cancellation), every stored answer, and every answer ever replayed, is the storable
      answer an endpoint really gave for that same key and body, below status 500 and with
      allow-listed headers only; and "different body" and "still running" are said only when
      a request with a different, or the same, body really wrote to that key. */
  lemma ReplaySoundness(events: seq<Event>)
    ensures var s := Run(Empty, events);
            && (forall key :: key in s.store && s.store[key].record.Done? ==>
                 var record := s.store[key].record;
                 && (exists q :: CameFrom(s, q, key, record.fingerprint, record.response))
                 && record.response.status < MAX_STORABLE_STATUS
                 && record.response.headers.Keys <= REPLAYABLE_HEADERS)
            && (forall rid :: rid in s.requests && s.requests[rid].phase.Ended? ==>
                 var r := s.requests[rid];
                 match r.phase.answer
                 case Replayed(stored) =>
                   && (exists q :: CameFrom(s, q, r.key, r.fingerprint, stored))
                   && stored.status < MAX_STORABLE_STATUS
                   && stored.headers.Keys <= REPLAYABLE_HEADERS
                 case StillRunning => exists q :: Wrote(s, q, r.key, r.fingerprint)
                 case BodyChanged => exists q, other :: other != r.fingerprint && Wrote(s, q, r.key, other)
                 case Own(response) => r.produced == Some(response)
                 case _ => true)
  {
    var s := Run(Empty, events);
    RunIsSound(Empty, events);
    forall key | key in s.store && s.store[key].record.Done?
      ensures var record := s.store[key].record;
              && (exists q :: CameFrom(s, q, key, record.fingerprint, record.response))
              && record.response.status < MAX_STORABLE_STATUS
              && record.response.headers.Keys <= REPLAYABLE_HEADERS
    {
      assert EntrySound(s, key);
    }
    forall rid | rid in s.requests && s.requests[rid].phase.Ended? ensures RequestSound(s, rid) {}
  }

  // ---- at most once: while no run outlasts its marker and no GET comes back empty ---------

  /** At most one request per key between PROCEED and its complete or release. */
  ghost predicate MutualExclusion(s: State) {
    forall p, q :: IsRunning(s, p) && IsRunning(s, q) && s.requests[p].key == s.requests[q].key ==> p == q
  }

  /** `rid` holds the live marker at its key, written when it was told PROCEED. */
  ghost predicate HoldsMarker(s: State, rid: Rid)
    requires rid in s.requests
  {
    var r := s.requests[rid];
    && Lookup(s, r.key) == Some(Entry(InFlight(r.fingerprint), r.startedAt + IN_FLIGHT_TTL, rid))
  }

  /** Every run holds its own marker. */
  ghost predicate Protected(s: State) {
    forall rid :: IsRunning(s, rid) ==> HoldsMarker(s, rid)
  }

  /** The two ways the code can lose at-most-once: a run that outlasts its 60-second marker,
      and a GET that finds nothing after its SET NX found something. */
  predicate Disciplined(s: State, e: Event) {
    match e
    case Tick(millis) =>
      forall rid :: rid in s.requests && IsRunning(s, rid) ==>
        s.now + millis < s.requests[rid].startedAt + 60 * 1000
    case Get(rid, fault) =>
      rid in s.requests && s.requests[rid].phase.Refused? && fault.Fine? ==>
        Lookup(s, s.requests[rid].key).Some?
    case _ => true
  }

  predicate DisciplinedRun(s: State, events: seq<Event>)
    decreases events
  {
    events == [] || (Disciplined(s, events[0]) && DisciplinedRun(Step(s, events[0]), events[1..]))
  }

  lemma ProtectedExcludes(s: State)
    requires Protected(s)
    ensures MutualExclusion(s)
  {
    forall p, q | IsRunning(s, p) && IsRunning(s, q) && s.requests[p].key == s.requests[q].key
      ensures p == q
    {
      assert HoldsMarker(s, p) && HoldsMarker(s, q);
    }
  }

  /** Nobody else's marker is touched: a step of `rid` leaves the marker of every other run
      exactly as it was. */
  lemma OthersKeepTheirMarkers(s: State, e: Event)
    requires Protected(s) && !e.Tick? && !e.Arrive?
    ensures forall q :: q != e.rid && IsRunning(s, q) ==>
              IsRunning(Step(s, e), q) && HoldsMarker(Step(s, e), q)
  {
    var t := Step(s, e);
    forall q | q != e.rid && IsRunning(s, q)
      ensures IsRunning(t, q) && HoldsMarker(t, q)
    {
      assert HoldsMarker(s, q);
      if e.rid in s.requests {
        var mine := s.requests[e.rid];
        if mine.key == s.requests[q].key {
          assert !IsRunning(s, e.rid) by { ProtectedExcludes(s); }
        }
      }
    }
  }

  lemma {:induction false} StepStaysProtected(s: State, e: Event)
    requires Protected(s) && Disciplined(s, e)
    ensures Protected(Step(s, e))
  {
    var t := Step(s, e);
    if e.Tick? || e.Arrive? {
      forall q | IsRunning(t, q) ensures HoldsMarker(t, q) {
        assert IsRunning(s, q) && HoldsMarker(s, q);
      }
    } else {
      OthersKeepTheirMarkers(s, e);
      forall q | IsRunning(t, q) ensures HoldsMarker(t, q) {
        if q != e.rid {
          assert IsRunning(s, q);
        } else if IsRunning(s, q) {
          assert HoldsMarker(s, q);
        }
      }
    }
  }

  lemma {:induction false} RunStaysProtected(s: State, events: seq<Event>)
    requires Protected(s) && DisciplinedRun(s, events)
    ensures Protected(Run(s, events))
    decreases events
  {
    if events != [] {
      StepStaysProtected(s, events[0]);
      RunStaysProtected(Step(s, events[0]), events[1..]);
    }
  }

  /** At most once: on a disciplined run at most one request per key is at work, and each one
      at work holds its own live marker. */
  lemma AtMostOnce(events: seq<Event>)
    requires DisciplinedRun(Empty, events)
    ensures MutualExclusion(Run(Empty, events))
    ensures Protected(Run(Empty, events))
  {
    RunStaysProtected(Empty, events);
    ProtectedExcludes(Run(Empty, events));
  }

  /** A complete or release on a protected state takes away the caller's own marker, and no
      other entry. */
  lemma FinishTouchesOnlyItsOwnMarker(s: State, rid: Rid, fault: Fault)
    requires Protected(s) && IsRunning(s, rid) && !s.requests[rid].phase.Running?
    ensures var t := Step(s, Finish(rid, fault));
            && s.requests[rid].key in s.store
            && s.store[s.requests[rid].key].writer == rid
            && s.store[s.requests[rid].key].record.InFlight?
            && forall key :: key != s.requests[rid].key ==>
                 (key in t.store <==> key in s.store) && (key in t.store ==> t.store[key] == s.store[key])
  {
    assert HoldsMarker(s, rid);
  }

  /** What a kept record says to a request with this body. */
  function Told(record: Record, fingerprint: string): Answer
    requires record.Done?
  {
    if fingerprint == record.fingerprint then Replayed(record.response) else BodyChanged
  }

  /** Where a request that had no answer yet can be while a record is kept at its key. */
  predicate WaitingOrTold(r: Request, record: Record)
    requires record.Done?
  {
    r.phase in {Arrived, Refused, Ended(Told(record, r.fingerprint)), Ended(Unavailable), Ended(Lost)}
  }

  ghost predicate OnlyTold(s: State, key: string, record: Record, answered: set<Rid>)
    requires record.Done?
  {
    forall rid :: rid in s.requests && rid !in answered && s.requests[rid].key == key ==>
      WaitingOrTold(s.requests[rid], record)
  }

  /** The requests that already have their answer. */
  function Answered(s: State): set<Rid> {
    set rid | rid in s.requests && s.requests[rid].phase.Ended?
  }

  lemma NobodyRunsOnAFinishedKey(s: State, key: string)
    requires Protected(s)
    requires Lookup(s, key).Some? && Lookup(s, key).value.record.Done?
    ensures forall rid :: IsRunning(s, rid) ==> s.requests[rid].key != key
  {
    forall rid | IsRunning(s, rid) ensures s.requests[rid].key != key {
      assert HoldsMarker(s, rid);
    }
  }

  lemma StepKeepsTheAnswer(s: State, e: Event, key: string, entry: Entry, answered: set<Rid>)
    requires Protected(s) && Disciplined(s, e)
    requires Lookup(s, key) == Some(entry) && entry.record.Done?
    requires answered <= s.requests.Keys
    requires OnlyTold(s, key, entry.record, answered)
    requires Step(s, e).now < entry.expires
    ensures Lookup(Step(s, e), key) == Some(entry)
    ensures answered <= Step(s, e).requests.Keys
    ensures OnlyTold(Step(s, e), key, entry.record, answered)
  {
    NobodyRunsOnAFinishedKey(s, key);
    if !e.Tick? && e.rid in s.requests {
      OneRequestsStep(s, e, key, entry);
      var t := Step(s, e);
      forall q | q in t.requests && q !in answered && t.requests[q].key == key
        ensures WaitingOrTold(t.requests[q], entry.record)
      {
        assert q != e.rid ==> t.requests[q] == s.requests[q];
      }
    }
  }

  /** A step of one request, while the key is finished. */
  lemma OneRequestsStep(s: State, e: Event, key: string, entry: Entry)
    requires !e.Tick? && e.rid in s.requests
    requires s.requests[e.rid].key == key ==> !IsRunning(s, e.rid)
    requires Lookup(s, key) == Some(entry) && entry.record.Done?
    ensures var t := Step(s, e);
            && e.rid in t.requests && t.requests == s.requests[e.rid := t.requests[e.rid]]
            && Lookup(t, key) == Some(entry)
            && t.requests[e.rid].key == s.requests[e.rid].key
            && t.requests[e.rid].fingerprint == s.requests[e.rid].fingerprint
            && (s.requests[e.rid].key == key && WaitingOrTold(s.requests[e.rid], entry.record) ==>
                WaitingOrTold(t.requests[e.rid], entry.record))
  {}

  lemma {:induction false} NowNeverGoesBack(s: State, events: seq<Event>)
    ensures s.now <= Run(s, events).now
    decreases events
  {
    if events != [] {
      NowNeverGoesBack(Step(s, events[0]), events[1..]);
    }
  }

  lemma {:induction false} RunKeepsTheAnswer(s: State, events: seq<Event>, key: string, entry: Entry, answered: set<Rid>)
    requires Protected(s) && DisciplinedRun(s, events)
    requires Lookup(s, key) == Some(entry) && entry.record.Done?
    requires answered <= s.requests.Keys
    requires OnlyTold(s, key, entry.record, answered)
    requires Run(s, events).now < entry.expires
    ensures Protected(Run(s, events))
    ensures Lookup(Run(s, events), key) == Some(entry)
    ensures OnlyTold(Run(s, events), key, entry.record, answered)
    decreases events
  {
    if events != [] {
      var t := Step(s, events[0]);
      NowNeverGoesBack(t, events[1..]);
      StepKeepsTheAnswer(s, events[0], key, entry, answered);
      StepStaysProtected(s, events[0]);
      RunKeepsTheAnswer(t, events[1..], key, entry, answered);
    }
  }

  /** A command of its own that failed, or whose reply was lost. */
  predicate IsFaultOf(e: Event, q: Rid) {
    (e.SetNx? || e.Get? || e.Finish?) && e.rid == q && !e.fault.Fine?
  }

  ghost predicate MetFault(events: seq<Event>, q: Rid) {
    exists i :: 0 <= i < |events| && IsFaultOf(events[i], q)
  }

  ghost predicate WasCancelled(events: seq<Event>, q: Rid) {
    exists i :: 0 <= i < |events| && events[i] == Cancel(q)
  }

  lemma OneStepEndsWithout(s: State, e: Event, q: Rid)
    requires q in Step(s, e).requests && !(q in s.requests && s.requests[q].phase == Step(s, e).requests[q].phase)
    ensures Step(s, e).requests[q].phase == Ended(Unavailable) ==> IsFaultOf(e, q)
    ensures Step(s, e).requests[q].phase == Ended(Lost) ==> e == Cancel(q)
  {}

  /** Nobody is told "unavailable" but for a fault of a command of his own, and nobody's answer is
      lost but when he was cancelled. */
  lemma {:induction false} NoAnswerHasACause(s: State, events: seq<Event>, q: Rid)
    requires q in Run(s, events).requests
    requires q in s.requests ==> !(s.requests[q].phase in {Ended(Unavailable), Ended(Lost)})
    ensures Run(s, events).requests[q].phase == Ended(Unavailable) ==> MetFault(events, q)
    ensures Run(s, events).requests[q].phase == Ended(Lost) ==> WasCancelled(events, q)
    decreases events
  {
    if events != [] {
      var t := Step(s, events[0]);
      if q in t.requests && t.requests[q].phase in {Ended(Unavailable), Ended(Lost)} {
        OneStepEndsWithout(s, events[0], q);
        EndedStays(t, events[1..], q);
      } else {
        NoAnswerHasACause(t, events[1..], q);
        if i :| 0 <= i < |events[1..]| && IsFaultOf(events[1..][i], q) {
          assert IsFaultOf(events[i + 1], q);
        }
        if i :| 0 <= i < |events[1..]| && events[1..][i] == Cancel(q) {
          assert events[i + 1] == Cancel(q);
        }
      }
    }
  }

  lemma {:induction false} EndedStays(s: State, events: seq<Event>, q: Rid)
    requires q in s.requests && s.requests[q].phase.Ended?
    ensures q in Run(s, events).requests && Run(s, events).requests[q].phase == s.requests[q].phase
    decreases events
  {
    if events != [] {
      assert q in Step(s, events[0]).requests && Step(s, events[0]).requests[q].phase == s.requests[q].phase;
      EndedStays(Step(s, events[0]), events[1..], q);
    }
  }

  /** A new request whose key the store holds, with no fault: told that the body changed, that the
      first attempt is still running, or the stored answer; and nothing is written. */
  lemma RetryIsTold(t: State, q: Rid, key: string, fingerprint: string)
    requires q !in t.requests && Lookup(t, key).Some?
    ensures var record := Lookup(t, key).value.record;
            var u := Run(t, [Arrive(q, key, fingerprint), SetNx(q, Fine), Get(q, Fine)]);
            && q in u.requests && u.store == t.store
            && (fingerprint != record.fingerprint ==> u.requests[q].phase == Ended(BodyChanged))
            && (fingerprint == record.fingerprint && record.InFlight? ==> u.requests[q].phase == Ended(StillRunning))
            && (fingerprint == record.fingerprint && record.Done? ==> u.requests[q].phase == Ended(Replayed(record.response)))
  {
    Unroll(t, [Arrive(q, key, fingerprint), SetNx(q, Fine), Get(q, Fine)]);
  }

  /** A claim that meets a fault is never let in. Its marker is there for a minute if the command
      landed on a free key, and nothing else it did is. */
  lemma FaultyClaimIsUnavailable(s: State, rid: Rid, fault: Fault)
    requires rid in s.requests && !fault.Fine?
    ensures var r, t := s.requests[rid], Step(s, SetNx(rid, fault));
            r.phase.Arrived? ==>
              && t.requests[rid].phase == Ended(Unavailable)
              && (fault.FailsBefore? || Lookup(s, r.key).Some? ==> t.store == s.store)
              && (fault.FailsAfter? && Lookup(s, r.key) == None ==>
                   Lookup(t, r.key) == Some(Entry(InFlight(r.fingerprint), s.now + 60 * 1000, rid)))
    ensures s.requests[rid].phase.Refused? ==>
              Step(s, Get(rid, fault)).requests[rid].phase == Ended(Unavailable) && Step(s, Get(rid, fault)).store == s.store
  {}

  /** The end of a run on which the store works: the caller gets the endpoint's own answer. One with
      a body and below 500 is kept for 24 hours under its key; after any other, as after an error,
      the key is free. (A body that is no text ends in a crash, with the marker left.) */
  lemma FaultFreeRun(s: State, rid: Rid, response: Response)
    requires rid in s.requests && s.requests[rid].phase.Running?
    ensures var r := s.requests[rid];
            var u := Run(s, [Return(rid, response), Finish(rid, Fine)]);
            && rid in u.requests
            && (forall key :: key != r.key ==> Lookup(u, key) == Lookup(s, key))
            && (response.body.Text? && response.status < 500 ==>
                 && u.requests[rid].phase == Ended(Own(response))
                 && Lookup(u, r.key) == Some(Entry(Done(r.fingerprint, ToStored(response)), s.now + 24 * 60 * 60 * 1000, rid)))
            && (response.body.Streaming? || response.status >= 500 ==>
                 u.requests[rid].phase == Ended(Own(response)) && Lookup(u, r.key) == None)
            && (response.body.NotUtf8? && response.status < 500 ==>
                 u.requests[rid].phase == Ended(Crashed) && Lookup(u, r.key) == Lookup(s, r.key))
  {
    Unroll(s, [Return(rid, response), Finish(rid, Fine)]);
  }

  lemma FaultFreeError(s: State, rid: Rid)
    requires rid in s.requests && s.requests[rid].phase.Running?
    ensures var u := Run(s, [Raise(rid), Finish(rid, Fine)]);
            && rid in u.requests && u.requests[rid].phase == Ended(OwnError)
            && Lookup(u, s.requests[rid].key) == None
            && forall key :: key != s.requests[rid].key ==> Lookup(u, key) == Lookup(s, key)
  {
    Unroll(s, [Raise(rid), Finish(rid, Fine)]);
  }

  /** And when the store fails the end of a run: the caller of a complete is told it is unavailable,
      a release's failure is never told. What did not land changed nothing. */
  lemma FaultyFinish(s: State, rid: Rid, fault: Fault)
    requires rid in s.requests && !fault.Fine?
    ensures var r := s.requests[rid];
            var phase := Step(s, Finish(rid, fault)).requests[rid].phase;
            && (r.phase.Returned? && r.phase.result.body.Text? && r.phase.result.status < 500 ==> phase == Ended(Unavailable))
            && (r.phase.Returned? && (r.phase.result.body.Streaming? || r.phase.result.status >= 500) ==>
                 phase == Ended(Own(r.phase.result)))
            && (r.phase.Raised? ==> phase == Ended(OwnError))
    ensures var r, t := s.requests[rid], Step(s, Finish(rid, fault));
            && (fault.FailsBefore? ==> t.store == s.store)
            && (fault.FailsAfter? && (r.phase.Raised? || (r.phase.Returned? && r.phase.result.status >= 500)) ==>
                 Lookup(t, r.key) == None)
  {}

  /** After a complete's SET lands, with its reply or without, for the 24 hours it is kept and on
      every disciplined run: the record stays what it is, nobody gets PROCEED on that key, and a
      retry that gets an answer from the store gets exactly the recorded one when its body is the
      same, and is told that the body changed when it is not. */
  lemma AnswerStandsForADay(s: State, rid: Rid, fault: Fault, later: seq<Event>)
    requires Protected(s) && rid in s.requests && s.requests[rid].phase.Returned? && !fault.FailsBefore?
    requires Storable(s.requests[rid].phase.result) && s.requests[rid].phase.result.body.Text?
    requires DisciplinedRun(Step(s, Finish(rid, fault)), later)
    requires Run(Step(s, Finish(rid, fault)), later).now < s.now + 24 * 60 * 60 * 1000
    ensures var done := Step(s, Finish(rid, fault));
            var t := Run(done, later);
            var r := s.requests[rid];
            var stored := ToStored(r.phase.result);
            && Lookup(t, r.key) == Some(Entry(Done(r.fingerprint, stored), s.now + 24 * 60 * 60 * 1000, rid))
            && (forall q :: IsRunning(t, q) ==> t.requests[q].key != r.key)
            && (forall q :: q in t.requests && q !in Answered(done) && t.requests[q].key == r.key ==>
                 || t.requests[q].phase in {Arrived, Refused}
                 || t.requests[q].phase == Ended(if t.requests[q].fingerprint == r.fingerprint then Replayed(stored) else BodyChanged)
                 || (t.requests[q].phase == Ended(Unavailable) && MetFault(later, q))
                 || (t.requests[q].phase == Ended(Lost) && WasCancelled(later, q)))
  {
    var done := Step(s, Finish(rid, fault));
    var t := Run(done, later);
    var r := s.requests[rid];
    var entry := Entry(Done(r.fingerprint, ToStored(r.phase.result)), s.now + COMPLETED_TTL, rid);
    StepStaysProtected(s, Finish(rid, fault));
    assert Lookup(done, r.key) == Some(entry) by { NowNeverGoesBack(done, later); }
    NobodyRunsOnAFinishedKey(done, r.key);
    RunKeepsTheAnswer(done, later, r.key, entry, Answered(done));
    NobodyRunsOnAFinishedKey(t, r.key);
    forall q | q in t.requests && q !in Answered(done) && t.requests[q].key == r.key
      ensures WaitingOrTold(t.requests[q], entry.record)
      ensures t.requests[q].phase == Ended(Unavailable) ==> MetFault(later, q)
      ensures t.requests[q].phase == Ended(Lost) ==> WasCancelled(later, q)
    {
      NoAnswerHasACause(done, later, q);
    }
  }

  // ---- what a lost claim costs --------------------------------------------------------------

  /** No marker lives longer than a minute from now, whoever wrote it and whatever became of him. */
  ghost predicate MarkersAreShort(s: State) {
    forall key :: key in s.store && s.store[key].record.InFlight? ==> s.store[key].expires <= s.now + IN_FLIGHT_TTL
  }

  lemma StepKeepsMarkersShort(s: State, e: Event)
    requires MarkersAreShort(s)
    ensures MarkersAreShort(Step(s, e))
  {
    match e
    case SetNx(rid, fault) => if rid in s.requests { SetNxIsLocal(s, rid, fault); }
    case Get(rid, fault) => if rid in s.requests { GetIsLocal(s, rid, fault); }
    case Finish(rid, fault) => if rid in s.requests { FinishIsLocal(s, rid, fault); }
    case _ =>
  }

  lemma {:induction false} RunKeepsMarkersShort(s: State, events: seq<Event>)
    requires MarkersAreShort(s)
    ensures MarkersAreShort(Run(s, events))
    decreases events
  {
    if events != [] {
      StepKeepsMarkersShort(s, events[0]);
      RunKeepsMarkersShort(Step(s, events[0]), events[1..]);
    }
  }

  /** A step of a request under this key. */
  predicate OnKey(s: State, e: Event, key: string) {
    match e
    case Tick(_) => false
    case Arrive(_, its, _) => its == key
    case _ => e.rid in s.requests && s.requests[e.rid].key == key
  }

  predicate LeftAlone(s: State, events: seq<Event>, key: string)
    decreases events
  {
    events == [] || (!OnKey(s, events[0], key) && LeftAlone(Step(s, events[0]), events[1..], key))
  }

  lemma OtherKeysStay(s: State, e: Event, key: string)
    requires !OnKey(s, e, key)
    ensures key in Step(s, e).store <==> key in s.store
    ensures key in s.store ==> Step(s, e).store[key] == s.store[key]
  {
    match e
    case SetNx(rid, fault) => if rid in s.requests { SetNxIsLocal(s, rid, fault); }
    case Get(rid, fault) => if rid in s.requests { GetIsLocal(s, rid, fault); }
    case Finish(rid, fault) => if rid in s.requests { FinishIsLocal(s, rid, fault); }
    case _ =>
  }

  lemma {:induction false} LeftAloneStays(s: State, events: seq<Event>, key: string)
    requires LeftAlone(s, events, key)
    ensures key in Run(s, events).store <==> key in s.store
    ensures key in s.store ==> Run(s, events).store[key] == s.store[key]
    decreases events
  {
    if events != [] {
      OtherKeysStay(s, events[0], key);
      LeftAloneStays(Step(s, events[0]), events[1..], key);
    }
  }

  /** Losing a claim only costs a stale key for a minute: after any run, with every crash, fault and
      cancellation there may be, a key that holds no answer and is left alone for 60 seconds lets
      the next request in. */
  lemma StaleKeyCostsAMinute(events: seq<Event>, later: seq<Event>, key: string, rid: Rid, fingerprint: string)
    requires var s := Run(Empty, events);
             && (key in s.store ==> s.store[key].record.InFlight?)
             && LeftAlone(s, later, key)
             && Run(s, later).now >= s.now + 60 * 1000 && rid !in Run(s, later).requests
    ensures var t := Run(Run(Empty, events), later);
            Lookup(t, key) == None && IsRunning(ThenClaim(t, rid, key, fingerprint), rid)
  {
    var s := Run(Empty, events);
    RunKeepsMarkersShort(Empty, events);
    LeftAloneStays(s, later, key);
    ClaimOnAFreeKeyRuns(Run(s, later), rid, key, fingerprint);
  }

  lemma FreshRid(requests: map<Rid, Request>) returns (unused: Rid)
    ensures unused !in requests
  {
    unused := 0;
    var seen: set<Rid> := {};
    while unused in requests
      invariant seen <= requests.Keys
      invariant forall n :: n in seen ==> n < unused
      decreases requests.Keys - seen
    {
      seen := seen + {unused};
      unused := unused + 1;
    }
  }

  /** Two more steps: somebody new arrives and claims. */
  function ThenClaim(s: State, rid: Rid, key: string, fingerprint: string): State {
    Step(Step(s, Arrive(rid, key, fingerprint)), SetNx(rid, Fine))
  }

  lemma ClaimOnAFreeKeyRuns(s: State, rid: Rid, key: string, fingerprint: string)
    requires rid !in s.requests && Lookup(s, key) == None
    ensures IsRunning(ThenClaim(s, rid, key, fingerprint), rid)
    ensures forall q :: IsRunning(s, q) ==> IsRunning(ThenClaim(s, rid, key, fingerprint), q)
    ensures forall q :: q in s.requests ==> ThenClaim(s, rid, key, fingerprint).requests[q] == s.requests[q]
    ensures ThenClaim(s, rid, key, fingerprint).requests[rid].key == key
  {}

  /** Exactly when at-most-once survives: from a state where every run holds its marker, a
      step is disciplined if and only if no newcomer's claim right after it can be let in
      beside a run. */
  lemma DisciplineIsExact(s: State, e: Event)
    requires Protected(s)
    ensures Disciplined(s, e) <==>
            forall rid, key, fingerprint :: rid !in Step(s, e).requests ==>
              MutualExclusion(ThenClaim(Step(s, e), rid, key, fingerprint))
  {
    var t := Step(s, e);
    if Disciplined(s, e) {
      StepStaysProtected(s, e);
      forall rid, key, fingerprint | rid !in t.requests
        ensures MutualExclusion(ThenClaim(t, rid, key, fingerprint))
      {
        StepStaysProtected(t, Arrive(rid, key, fingerprint));
        StepStaysProtected(Step(t, Arrive(rid, key, fingerprint)), SetNx(rid, Fine));
        ProtectedExcludes(ThenClaim(t, rid, key, fingerprint));
      }
    } else {
      var victim := UnprotectedAfter(s, e);
      var key := t.requests[victim].key;
      var rid := FreshRid(t.requests);
      ClaimOnAFreeKeyRuns(t, rid, key, "");
      assert !MutualExclusion(ThenClaim(t, rid, key, ""));
    }
  }

  /** After an undisciplined step some run is at work on a key that looks free. */
  lemma UnprotectedAfter(s: State, e: Event) returns (victim: Rid)
    requires Protected(s) && !Disciplined(s, e)
    ensures IsRunning(Step(s, e), victim)
    ensures Lookup(Step(s, e), Step(s, e).requests[victim].key) == None
  {
    if e.Tick? {
      victim :| victim in s.requests && IsRunning(s, victim)
                && s.now + e.millis >= s.requests[victim].startedAt + IN_FLIGHT_TTL;
      assert HoldsMarker(s, victim);
    } else {
      victim := e.rid;
    }
  }

  // ---- what the two undisciplined steps do --------------------------------------------------

  lemma Unroll(s: State, events: seq<Event>)
    requires 1 <= |events| <= 4
    ensures |events| == 1 ==> Run(s, events) == Step(s, events[0])
    ensures |events| == 2 ==> Run(s, events) == Step(Step(s, events[0]), events[1])
    ensures |events| == 3 ==> Run(s, events) == Step(Step(Step(s, events[0]), events[1]), events[2])
    ensures |events| == 4 ==> Run(s, events) == Step(Step(Step(Step(s, events[0]), events[1]), events[2]), events[3])
    decreases |events|
  {
    if |events| > 1 {
      Unroll(Step(s, events[0]), events[1..]);
    } else {
      assert Run(Step(s, events[0]), events[1..]) == Step(s, events[0]);
    }
  }

  /** A first run outlasts its marker, a second claims the key, and the first one's release
      then deletes the second one's marker while it is at work. */
  lemma SlowRunReleasesAnothersMarker(key: string, body: string)
    ensures var late := Run(Empty, [Arrive(0, key, body), SetNx(0, Fine), Tick(IN_FLIGHT_TTL)]);
            var before := Run(late, [Arrive(1, key, body), SetNx(1, Fine), Raise(0)]);
            && IsRunning(before, 0) && IsRunning(before, 1)
            && HoldsMarker(before, 1)
            && IsRunning(Step(before, Finish(0, Fine)), 1)
            && Lookup(Step(before, Finish(0, Fine)), key) == None
  {
    Unroll(Empty, [Arrive(0, key, body), SetNx(0, Fine), Tick(IN_FLIGHT_TTL)]);
    var late := Run(Empty, [Arrive(0, key, body), SetNx(0, Fine), Tick(IN_FLIGHT_TTL)]);
    Unroll(late, [Arrive(1, key, body), SetNx(1, Fine), Raise(0)]);
  }

  /** Without any expiry: a release between a refused SET NX and its GET lets the second
      request proceed with no marker at all, and a third is let in beside it. */
  lemma EmptyGetRunsUnmarked(key: string, body: string)
    ensures var waiting := Run(Empty, [Arrive(0, key, body), SetNx(0, Fine), Arrive(1, key, body), SetNx(1, Fine)]);
            var s := Run(waiting, [Raise(0), Finish(0, Fine), Get(1, Fine)]);
            && IsRunning(s, 1) && Lookup(s, key) == None
            && IsRunning(ThenClaim(s, 2, key, body), 1)
            && IsRunning(ThenClaim(s, 2, key, body), 2)
  {
    OneRunsOneWaits(key, body);
    var waiting := Run(Empty, [Arrive(0, key, body), SetNx(0, Fine), Arrive(1, key, body), SetNx(1, Fine)]);
    Unroll(waiting, [Raise(0), Finish(0, Fine), Get(1, Fine)]);
  }

  lemma OneRunsOneWaits(key: string, body: string)
    ensures var s := Run(Empty, [Arrive(0, key, body), SetNx(0, Fine), Arrive(1, key, body), SetNx(1, Fine)]);
            s == State(0, map[key := Entry(InFlight(body), IN_FLIGHT_TTL, 0)],
                       map[0 := Request(key, body, Running, 0, None, true),
                           1 := Request(key, body, Refused, 0, None, false)])
  {
    Unroll(Empty, [Arrive(0, key, body), SetNx(0, Fine), Arrive(1, key, body), SetNx(1, Fine)]);
  }
}

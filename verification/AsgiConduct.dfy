/**
 The middleware stack as app/main.py installs it, each layer a change to what one HTTP request
 makes of the server's `receive` and `send` (app/core/security_headers.py, request_id.py,
 unexpected_error.py, load_shedding.py, body_limit.py). The layers themselves are in
 MiddlewareLayers; the CORS and rate-limit layers are library code, taken as they may be.
 */
module AsgiConduct {
  import opened Wrappers

  /** Header names are lower-case, as ASGI has them. */
  type Headers = map<string, seq<string>>

  datatype Message = Start(status: int, headers: Headers) | Body(size: nat)

  /** `except Exception` catches the first and lets the second pass. */
  datatype Error = Failure(what: string) | Cancelled

  datatype Arrival = Request(size: nat) | Disconnect

  /** One call the app makes outward: a read and what the server had for it, or a send and the
      error the server raised for it. */
  datatype Event = Read(arrival: Arrival) | Send(message: Message, raised: Option<Error>)

  datatype End = Returned | Raised(error: Error)

  /** All an app does with one request. Whatever an app is, each of its runs is one of these. */
  datatype Conduct = Conduct(events: seq<Event>, end: End)

  /** The two sends of an answer a layer makes by itself, and what the server raises for them. */
  datatype Fates = Fates(start: Option<Error>, body: Option<Error>)

  const TOO_LARGE := Failure("body_too_large")

  predicate IsStart(e: Event) {
    e.Send? && e.message.Start?
  }

  function Starts(events: seq<Event>): nat {
    if events == [] then 0 else (if IsStart(events[0]) then 1 else 0) + Starts(events[1..])
  }

  /** `await response(scope, receive, send)`: the start, then the body; the first that fails ends it. */
  function Answer(status: int, headers: Headers, size: nat, fates: Fates): Conduct {
    var start, body := Send(Start(status, headers), fates.start), Send(Body(size), fates.body);
    match fates.start
    case Some(error) => Conduct([start], Raised(error))
    case None => Conduct([start, body], if fates.body.Some? then Raised(fates.body.value) else Returned)
  }

  // ---- the layers ----------------------------------------------------------------------------------

  const BUSY_HEADERS: Headers := map["content-type" := ["application/problem+json"], "retry-after" := ["2"]]
  const PROBLEM_HEADERS: Headers := map["content-type" := ["application/problem+json"]]

  /** BodyLimitMiddleware: refused at once on the declared length, else let through. */
  function Limited(declared: Option<int>, limit: nat, inner: Conduct, size: nat, fates: Fates): Conduct {
    if declared.Some? && declared.value > limit then Answer(413, PROBLEM_HEADERS, size, fates) else inner
  }

  function Size(a: Arrival): nat {
    if a.Request? then a.size else 0
  }

  /** What receive_counting gives the app for each read, when `received` bytes came before. */
  function Handed(events: seq<Event>, received: nat, limit: nat): seq<Result<Arrival, Error>> {
    if events == [] then []
    else
      match events[0]
      case Send(_, _) => Handed(events[1..], received, limit)
      case Read(a) =>
        var now := received + Size(a);
        [if a.Request? && now > limit then Err(TOO_LARGE) else Ok(a)] + Handed(events[1..], now, limit)
  }

  /** A library layer: it answers, or fails, by itself; or passes on, whatever it adds to headers. */
  datatype Library = Answers(own: Conduct) | Decorates(add: Headers -> Headers)

  predicate Sane(l: Library) {
    l.Answers? ==> Starts(l.own.events) <= 1
  }

  function OnStarts(events: seq<Event>, change: Headers -> Headers): seq<Event> {
    if events == [] then [] else [OnStart(events[0], change)] + OnStarts(events[1..], change)
  }

  function OnStart(e: Event, change: Headers -> Headers): Event {
    if IsStart(e) then e.(message := e.message.(headers := change(e.message.headers))) else e
  }

  function Through(l: Library, inner: Conduct): Conduct {
    match l
    case Answers(own) => own
    case Decorates(add) => inner.(events := OnStarts(inner.events, add))
  }

  /** How LoadSheddingMiddleware let the request in, or not. */
  datatype Admission = LetIn | Shed(size: nat, fates: Fates) | CancelledWaiting

  function Admitted(a: Admission, inner: Conduct): Conduct {
    match a
    case LetIn => inner
    case Shed(size, fates) => Answer(503, BUSY_HEADERS, size, fates)
    case CancelledWaiting => Conduct([], Raised(Cancelled))
  }

  /** UnexpectedErrorMiddleware. */
  function Caught(inner: Conduct, size: nat, fates: Fates): Conduct {
    if inner.end.Raised? && inner.end.error.Failure? && Starts(inner.events) == 0 then
      var answer := Answer(500, PROBLEM_HEADERS, size, fates);
      Conduct(inner.events + answer.events, answer.end)
    else inner
  }

  function WithRequestId(id: string): Headers -> Headers {
    headers => headers["x-request-id" := [id]]
  }

  /** The route's own values stay; the others are the defaults. */
  function WithDefaults(defaults: map<string, string>): Headers -> Headers {
    headers => (map name | name in defaults :: [defaults[name]]) + headers
  }

  const API_POLICY := "default-src 'none'; frame-ancestors 'none'; base-uri 'none'"

  const DOCS_POLICY :=
    "default-src 'none'; "
    + "script-src 'self' https://cdn.jsdelivr.net 'unsafe-inline'; "
    + "style-src 'self' https://cdn.jsdelivr.net https://fonts.googleapis.com 'unsafe-inline'; "
    + "font-src 'self' https://fonts.gstatic.com data:; "
    + "img-src 'self' https://fastapi.tiangolo.com data:; "
    + "connect-src 'self'; "
    + "worker-src 'self' blob:; "
    + "frame-ancestors 'none'; "
    + "base-uri 'none'"

  function SecurityHeaders(path: string, https: bool): map<string, string> {
    map["x-content-type-options" := "nosniff", "referrer-policy" := "no-referrer",
        "x-frame-options" := "DENY", "x-robots-tag" := "noindex",
        "content-security-policy" := if path in {"/docs", "/redoc"} then DOCS_POLICY else API_POLICY]
    + if https then map["strict-transport-security" := "max-age=31536000; includeSubDomains"] else map[]
  }

  /** Everything about one request that the route does not decide. */
  datatype Setting = Setting(
    declared: Option<int>, limit: nat, refusal: (nat, Fates), slow: Library, admission: Admission,
    apology: (nat, Fates), cors: Library, requestId: string, path: string, https: bool)

  predicate SettingSane(s: Setting) {
    Sane(s.slow) && Sane(s.cors)
  }

  /** What reaches UnexpectedErrorMiddleware from inside. */
  function BelowCatch(s: Setting, route: Conduct): Conduct {
    Admitted(s.admission, Through(s.slow, Limited(s.declared, s.limit, route, s.refusal.0, s.refusal.1)))
  }

  /** What leaves the two header layers, the last ones added. */
  function Marked(s: Setting, inner: Conduct): Conduct {
    inner.(events := OnStarts(OnStarts(inner.events, WithRequestId(s.requestId)),
                              WithDefaults(SecurityHeaders(s.path, s.https))))
  }

  /** What the server sees: the layers in the order of app/main.py, the last added outermost. */
  function Leaves(s: Setting, route: Conduct): Conduct {
    Marked(s, Through(s.cors, Caught(BelowCatch(s, route), s.apology.0, s.apology.1)))
  }

  // ---- what the whole stack promises ---------------------------------------------------------------

  lemma {:induction false} OnStartsKeepsCount(events: seq<Event>, change: Headers -> Headers)
    ensures |OnStarts(events, change)| == |events|
    ensures Starts(OnStarts(events, change)) == Starts(events)
    ensures forall i :: 0 <= i < |events| ==> OnStarts(events, change)[i] == OnStart(events[i], change)
  {
    if events != [] {
      OnStartsKeepsCount(events[1..], change);
    }
  }

  lemma {:induction false} StartsConcat(a: seq<Event>, b: seq<Event>)
    ensures Starts(a + b) == Starts(a) + Starts(b)
  {
    if a == [] {
      assert a + b == b;
    } else {
      StartsConcat(a[1..], b);
      assert (a + b)[1..] == a[1..] + b;
    }
  }

  lemma AnswerStartsOnce(status: int, headers: Headers, size: nat, fates: Fates)
    ensures Starts(Answer(status, headers, size, fates).events) == 1
  {
    var events := Answer(status, headers, size, fates).events;
    if |events| == 2 {
      assert Starts(events[1..]) == 0 by { assert events[1..][1..] == []; }
    }
  }

  lemma CaughtStarts(inner: Conduct, size: nat, fates: Fates)
    ensures Starts(inner.events) <= 1 ==> Starts(Caught(inner, size, fates).events) <= 1
  {
    var answer := Answer(500, PROBLEM_HEADERS, size, fates);
    AnswerStartsOnce(500, PROBLEM_HEADERS, size, fates);
    StartsConcat(inner.events, answer.events);
  }

  lemma ThroughStarts(l: Library, inner: Conduct)
    requires Sane(l)
    ensures Starts(inner.events) <= 1 ==> Starts(Through(l, inner).events) <= 1
  {
    if l.Decorates? {
      OnStartsKeepsCount(inner.events, l.add);
    }
  }

  /** One answer at most leaves, whatever inside refuses, fails, is shed or cancelled. */
  lemma AtMostOneStartLeaves(s: Setting, route: Conduct)
    requires SettingSane(s) && Starts(route.events) <= 1
    ensures Starts(Leaves(s, route).events) <= 1
  {
    var limited := Limited(s.declared, s.limit, route, s.refusal.0, s.refusal.1);
    AnswerStartsOnce(413, PROBLEM_HEADERS, s.refusal.0, s.refusal.1);
    ThroughStarts(s.slow, limited);
    if s.admission.Shed? {
      AnswerStartsOnce(503, BUSY_HEADERS, s.admission.size, s.admission.fates);
    }
    var below := BelowCatch(s, route);
    CaughtStarts(below, s.apology.0, s.apology.1);
    var caught := Caught(below, s.apology.0, s.apology.1);
    ThroughStarts(s.cors, caught);
    var passed := Through(s.cors, caught);
    OnStartsKeepsCount(passed.events, WithRequestId(s.requestId));
    OnStartsKeepsCount(OnStarts(passed.events, WithRequestId(s.requestId)),
                       WithDefaults(SecurityHeaders(s.path, s.https)));
  }

  /** What the two outer layers make of one start: the request's ID in place of any other, and
      every security header, with the value the inside gave it if it gave one. */
  ghost predicate IsMarked(s: Setting, inner: Headers, left: Headers) {
    MarkedWith(SecurityHeaders(s.path, s.https), s.requestId, inner, left)
  }

  ghost predicate MarkedWith(defaults: map<string, string>, id: string, inner: Headers, left: Headers) {
    && "x-request-id" in left && left["x-request-id"] == [id]
    && (forall name :: name in defaults ==>
         name in left && left[name] == if name in inner then inner[name] else [defaults[name]])
    && (forall name :: name != "x-request-id" && name !in defaults ==>
         (name in left <==> name in inner) && (name in inner ==> left[name] == inner[name]))
  }

  lemma HeadersAreMarked(s: Setting, inner: Headers)
    ensures IsMarked(s, inner, WithDefaults(SecurityHeaders(s.path, s.https))(WithRequestId(s.requestId)(inner)))
  {
    var defaults := SecurityHeaders(s.path, s.https);
    assert "x-request-id" !in defaults by {
      assert |"x-request-id"| == 12 && |"x-frame-options"| == 15 && |"x-robots-tag"| == 12;
      assert "x-request-id"[3] != "x-robots-tag"[3];
      assert |"x-content-type-options"| == 22 && |"referrer-policy"| == 15;
      assert |"content-security-policy"| == 23 && |"strict-transport-security"| == 25;
    }
  }

  /** Every start that leaves carries the request's ID and every security header: the route's
      answer, a 413, a 429, the 503 and the 500 alike, and whatever the route did. */
  lemma EveryStartIsMarked(s: Setting, route: Conduct, i: nat)
    requires i < |Leaves(s, route).events| && IsStart(Leaves(s, route).events[i])
    ensures var inner := Through(s.cors, Caught(BelowCatch(s, route), s.apology.0, s.apology.1)).events;
            && |inner| == |Leaves(s, route).events| && IsStart(inner[i])
            && inner[i].message.status == Leaves(s, route).events[i].message.status
            && IsMarked(s, inner[i].message.headers, Leaves(s, route).events[i].message.headers)
  {
    var inner := Through(s.cors, Caught(BelowCatch(s, route), s.apology.0, s.apology.1)).events;
    OnStartsKeepsCount(inner, WithRequestId(s.requestId));
    OnStartsKeepsCount(OnStarts(inner, WithRequestId(s.requestId)), WithDefaults(SecurityHeaders(s.path, s.https)));
    if IsStart(inner[i]) {
      HeadersAreMarked(s, inner[i].message.headers);
    }
  }

  /** `name` leaves with the value the inside gave it, and otherwise with this one. */
  predicate LeavesWith(inner: Headers, left: Headers, name: string, value: string) {
    name in left && left[name] == if name in inner then inner[name] else [value]
  }

  /** The security headers by name: never guess a type, never tell where a user came from, never be
      framed, never be indexed, load nothing; and HTTPS only where the site is on HTTPS. */
  lemma StartsForbid(s: Setting, inner: Headers, left: Headers)
    requires IsMarked(s, inner, left)
    ensures LeavesWith(inner, left, "x-content-type-options", "nosniff")
    ensures LeavesWith(inner, left, "referrer-policy", "no-referrer")
    ensures LeavesWith(inner, left, "x-frame-options", "DENY")
    ensures LeavesWith(inner, left, "x-robots-tag", "noindex")
    ensures s.path != "/docs" && s.path != "/redoc" ==>
              LeavesWith(inner, left, "content-security-policy", "default-src 'none'; frame-ancestors 'none'; base-uri 'none'")
    ensures s.https ==> LeavesWith(inner, left, "strict-transport-security", "max-age=31536000; includeSubDomains")
    ensures !s.https && "strict-transport-security" !in inner ==> "strict-transport-security" !in left
  {
    SecurityHeadersByName(s.path, s.https);
    DefaultsLeave(SecurityHeaders(s.path, s.https), s.requestId, inner, left);
  }

  lemma DefaultsLeave(defaults: map<string, string>, id: string, inner: Headers, left: Headers)
    requires MarkedWith(defaults, id, inner, left)
    ensures forall name :: name in defaults ==> LeavesWith(inner, left, name, defaults[name])
    ensures forall name :: name !in defaults && name !in inner && name != "x-request-id" ==> name !in left
  {}

  lemma SecurityHeadersByName(path: string, https: bool)
    ensures var defaults := SecurityHeaders(path, https);
            && "x-content-type-options" in defaults && defaults["x-content-type-options"] == "nosniff"
            && "referrer-policy" in defaults && defaults["referrer-policy"] == "no-referrer"
            && "x-frame-options" in defaults && defaults["x-frame-options"] == "DENY"
            && "x-robots-tag" in defaults && defaults["x-robots-tag"] == "noindex"
            && "content-security-policy" in defaults
            && (path != "/docs" && path != "/redoc" ==>
                 defaults["content-security-policy"] == "default-src 'none'; frame-ancestors 'none'; base-uri 'none'")
            && (https <==> "strict-transport-security" in defaults)
            && (https ==> defaults["strict-transport-security"] == "max-age=31536000; includeSubDomains")
            && "strict-transport-security" != "x-request-id"
  {
    assert |"x-content-type-options"| == 22 && |"referrer-policy"| == 15 && |"x-frame-options"| == 15;
    assert |"x-robots-tag"| == 12 && |"content-security-policy"| == 23 && |"strict-transport-security"| == 25;
    assert "referrer-policy"[0] != "x-frame-options"[0] && |"x-request-id"| == 12;
  }

  /** The same calls with the same statuses; only headers may differ. */
  ghost predicate SameButHeaders(a: seq<Event>, b: seq<Event>) {
    && |a| == |b| && Starts(a) == Starts(b)
    && (forall i :: 0 <= i < |a| ==>
         (IsStart(a[i]) <==> IsStart(b[i])) &&
         (if IsStart(a[i]) then a[i].message.status == b[i].message.status && a[i].raised == b[i].raised
          else a[i] == b[i]))
  }

  lemma OnStartsSameButHeaders(events: seq<Event>, change: Headers -> Headers)
    ensures SameButHeaders(OnStarts(events, change), events)
  {
    OnStartsKeepsCount(events, change);
  }

  /** With CORS passing, what leaves is what the catch made of what is below it. */
  lemma PassedOn(s: Setting, route: Conduct)
    requires s.cors.Decorates?
    ensures var caught := Caught(BelowCatch(s, route), s.apology.0, s.apology.1);
            SameButHeaders(Leaves(s, route).events, caught.events) && Leaves(s, route).end == caught.end
  {
    var caught := Caught(BelowCatch(s, route), s.apology.0, s.apology.1);
    OnStartsSameButHeaders(caught.events, s.cors.add);
    var passed := OnStarts(caught.events, s.cors.add);
    OnStartsSameButHeaders(passed, WithRequestId(s.requestId));
    OnStartsSameButHeaders(OnStarts(passed, WithRequestId(s.requestId)),
                           WithDefaults(SecurityHeaders(s.path, s.https)));
  }

  lemma CaughtBeforeStart(inner: Conduct, size: nat, fates: Fates)
    requires inner.end.Raised? && inner.end.error.Failure? && Starts(inner.events) == 0
    ensures var caught := Caught(inner, size, fates);
            && Starts(caught.events) == 1
            && inner.events < caught.events
            && (forall i :: 0 <= i < |caught.events| && IsStart(caught.events[i]) ==> caught.events[i].message.status == 500)
            && (fates == Fates(None, None) ==> caught.end == Returned && |caught.events| == |inner.events| + 2)
  {
    var answer := Answer(500, PROBLEM_HEADERS, size, fates);
    AnswerStartsOnce(500, PROBLEM_HEADERS, size, fates);
    StartsConcat(inner.events, answer.events);
    forall i | 0 <= i < |inner.events| ensures !IsStart(inner.events[i]) {
      NoStarts(inner.events, i);
    }
  }

  /** A failure anywhere below the catch (the route, the body limit, the rate limiter, an answer
      of theirs that could not be sent) before any answer began leaves one start, a 500, after
      what was done before; after an answer began, or when it was cancelled, it is passed on and
      nothing more is sent. */
  lemma FailureBelowCatch(s: Setting, route: Conduct)
    requires s.cors.Decorates? && BelowCatch(s, route).end.Raised?
    ensures var below, left := BelowCatch(s, route), Leaves(s, route);
            if below.end.error.Failure? && Starts(below.events) == 0 then
              && Starts(left.events) == 1
              && |left.events| > |below.events|
              && (forall i :: 0 <= i < |left.events| && IsStart(left.events[i]) ==> left.events[i].message.status == 500)
              && (s.apology.1 == Fates(None, None) ==> left.end == Returned && |left.events| == |below.events| + 2)
            else SameButHeaders(left.events, below.events) && left.end == below.end
  {
    PassedOn(s, route);
    var below := BelowCatch(s, route);
    if below.end.error.Failure? && Starts(below.events) == 0 {
      CaughtBeforeStart(below, s.apology.0, s.apology.1);
    }
  }

  /** What is below the catch when the body limit and the limiter let the request through: the
      route's conduct, or the rate limiter's own, a crash of it included. */
  lemma BelowCatchIs(s: Setting, route: Conduct)
    requires !(s.declared.Some? && s.declared.value > s.limit) && s.admission.LetIn?
    ensures s.slow.Decorates? ==> SameButHeaders(BelowCatch(s, route).events, route.events) && BelowCatch(s, route).end == route.end
    ensures s.slow.Answers? ==> BelowCatch(s, route) == s.slow.own
  {
    if s.slow.Decorates? {
      OnStartsSameButHeaders(route.events, s.slow.add);
    }
  }

  /** So a failure of the route itself before any answer becomes one 500 and nothing else. */
  lemma RouteFailure(s: Setting, route: Conduct)
    requires !(s.declared.Some? && s.declared.value > s.limit) && s.admission.LetIn?
    requires s.slow.Decorates? && s.cors.Decorates? && route.end.Raised?
    ensures var left := Leaves(s, route);
            if route.end.error.Failure? && Starts(route.events) == 0 then
              && Starts(left.events) == 1
              && |left.events| > |route.events|
              && (forall i :: 0 <= i < |left.events| && IsStart(left.events[i]) ==> left.events[i].message.status == 500)
              && (s.apology.1 == Fates(None, None) ==> left.end == Returned && |left.events| == |route.events| + 2)
            else SameButHeaders(left.events, route.events) && left.end == route.end
  {
    BelowCatchIs(s, route);
    FailureBelowCatch(s, route);
  }

  /** One whole answer went out: its start, its body, and nothing else. */
  predicate OneAnswer(c: Conduct, status: int) {
    && c.end == Returned && |c.events| == 2
    && c.events[0].Send? && c.events[0].message.Start? && c.events[0].message.status == status
    && c.events[1].Send? && c.events[1].message.Body?
    && c.events[0].raised == c.events[1].raised == None
  }

  lemma OneAnswerPassesOn(a: seq<Event>, b: seq<Event>, end: End, status: int)
    requires SameButHeaders(a, b) && OneAnswer(Conduct(b, end), status)
    ensures OneAnswer(Conduct(a, end), status)
  {
    assert IsStart(a[0]) && !IsStart(a[1]);
  }

  /** A body declared longer than the limit never reaches the app: what leaves is the same for any
      two routes, and where nothing outside speaks for itself it is one 413. */
  lemma DeclaredTooLargeIsRefused(s: Setting, route: Conduct, other: Conduct)
    requires s.declared.Some? && s.declared.value > s.limit
    ensures Leaves(s, route) == Leaves(s, other)
    ensures s.admission.LetIn? && s.slow.Decorates? && s.cors.Decorates? && s.refusal.1 == Fates(None, None) ==>
              OneAnswer(Leaves(s, route), 413)
  {
    if s.admission.LetIn? && s.slow.Decorates? && s.cors.Decorates? && s.refusal.1 == Fates(None, None) {
      var refusal := Limited(s.declared, s.limit, route, s.refusal.0, s.refusal.1);
      OnStartsSameButHeaders(refusal.events, s.slow.add);
      var below := BelowCatch(s, route);
      OneAnswerPassesOn(below.events, refusal.events, Returned, 413);
      PassedOn(s, route);
      OneAnswerPassesOn(Leaves(s, route).events, below.events, Returned, 413);
    }
  }

  /** A request that got no place never reaches the app either: one 503 that says when to come back,
      whatever length it declared and whatever the layers inside would have said. */
  lemma ShedIsRefused(s: Setting, route: Conduct, other: Conduct)
    requires s.admission.Shed?
    ensures Leaves(s, route) == Leaves(s, other)
    ensures s.cors.Decorates? && s.admission.fates == Fates(None, None) ==>
              && OneAnswer(Leaves(s, route), 503)
              && IsStart(BelowCatch(s, route).events[0])
              && "retry-after" in BelowCatch(s, route).events[0].message.headers
              && BelowCatch(s, route).events[0].message.headers["retry-after"] == ["2"]
  {
    if s.cors.Decorates? && s.admission.fates == Fates(None, None) {
      PassedOn(s, route);
      OneAnswerPassesOn(Leaves(s, route).events, BelowCatch(s, route).events, Returned, 503);
    }
  }

  /** And one that was cancelled while it waited sends nothing. */
  lemma CancelledWaitingSendsNothing(s: Setting, route: Conduct)
    requires s.admission.CancelledWaiting? && s.cors.Decorates?
    ensures Leaves(s, route) == Conduct([], Raised(Cancelled))
  {
    PassedOn(s, route);
  }

  /** Otherwise what the route did is what leaves, call by call. */
  lemma RouteAnswers(s: Setting, route: Conduct)
    requires !(s.declared.Some? && s.declared.value > s.limit) && s.admission.LetIn?
    requires s.slow.Decorates? && s.cors.Decorates? && route.end.Returned?
    ensures SameButHeaders(Leaves(s, route).events, route.events) && Leaves(s, route).end == Returned
  {
    BelowCatchIs(s, route);
    PassedOn(s, route);
  }

  lemma {:induction false} NoStarts(events: seq<Event>, i: nat)
    requires Starts(events) == 0 && i < |events|
    ensures !IsStart(events[i])
  {
    if i > 0 {
      NoStarts(events[1..], i - 1);
    }
  }

  // ---- the body limit ------------------------------------------------------------------------------

  function Bytes(handed: seq<Result<Arrival, Error>>): nat {
    if handed == [] then 0
    else (if handed[0].Ok? then Size(handed[0].value) else 0) + Bytes(handed[1..])
  }

  /** However the body comes, and however often the app reads on after a refusal, it is never
      handed more than the limit in total. */
  lemma {:induction false} HandedWithinTheLimit(events: seq<Event>, received: nat, limit: nat)
    ensures Bytes(Handed(events, received, limit)) + received <= limit || Bytes(Handed(events, received, limit)) == 0
    decreases events
  {
    if events != [] {
      match events[0]
      case Send(_, _) => HandedWithinTheLimit(events[1..], received, limit);
      case Read(a) =>
        HandedWithinTheLimit(events[1..], received + Size(a), limit);
        var rest := Handed(events[1..], received + Size(a), limit);
        assert Handed(events, received, limit)[1..] == rest;
    }
  }

  /** The bytes that arrived in the first `n` events. */
  function Arrived(events: seq<Event>): nat {
    if events == [] then 0
    else Arrived(events[..|events| - 1])
         + if events[|events| - 1].Read? then Size(events[|events| - 1].arrival) else 0
  }

  function Reads(events: seq<Event>): nat {
    if events == [] then 0 else (if events[0].Read? then 1 else 0) + Reads(events[1..])
  }

  lemma {:induction false} ArrivedFromTheFront(events: seq<Event>)
    requires events != []
    ensures Arrived(events) == (if events[0].Read? then Size(events[0].arrival) else 0) + Arrived(events[1..])
  {
    if |events| == 1 {
      assert events[..0] == [] && events[1..] == [];
    } else {
      ArrivedFromTheFront(events[..|events| - 1]);
      assert events[..|events| - 1][1..] == events[1..][..|events| - 2];
      assert events[1..][|events| - 2] == events[|events| - 1];
    }
  }

  /** A read is refused exactly when the bytes that arrived by then are over the limit. */
  lemma {:induction false} ReadRefusedExactlyOverTheLimit(events: seq<Event>, received: nat, limit: nat, k: nat)
    requires k < |events| && events[k].Read?
    ensures |Handed(events, received, limit)| == Reads(events) && Reads(events[..k]) < Reads(events)
    ensures Handed(events, received, limit)[Reads(events[..k])]
            == if events[k].arrival.Request? && received + Arrived(events[..k + 1]) > limit then Err(TOO_LARGE)
               else Ok(events[k].arrival)
    decreases events
  {
    var now := received + if events[0].Read? then Size(events[0].arrival) else 0;
    HandedLength(events[1..], now, limit);
    ArrivedFromTheFront(events[..k + 1]);
    assert events[..k + 1][1..] == events[1..][..k];
    if k == 0 {
      assert Arrived(events[1..][..0]) == 0;
    } else {
      ReadRefusedExactlyOverTheLimit(events[1..], now, limit, k - 1);
      assert events[..k][1..] == events[1..][..k - 1];
    }
  }

  lemma {:induction false} HandedLength(events: seq<Event>, received: nat, limit: nat)
    ensures |Handed(events, received, limit)| == Reads(events)
    decreases events
  {
    if events != [] {
      HandedLength(events[1..], received + if events[0].Read? then Size(events[0].arrival) else 0, limit);
    }
  }
}

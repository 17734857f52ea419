/**
 The middlewares themselves, with the state their wrapped `send` and `receive` keep
 (app/core/security_headers.py, request_id.py, unexpected_error.py, body_limit.py). A call is
 driven by what the app inside does; what the layer makes of it is AsgiConduct's.
 */
module MiddlewareLayers {
  import opened Wrappers
  import opened AsgiConduct

  /** A dict, in its order. */
  function AsMap(items: seq<(string, string)>): map<string, string> {
    if items == [] then map[] else AsMap(items[..|items| - 1])[items[|items| - 1].0 := items[|items| - 1].1]
  }

  predicate DistinctNames(items: seq<(string, string)>) {
    forall i, j :: 0 <= i < j < |items| ==> items[i].0 != items[j].0
  }

  lemma {:induction false} AsMapKeys(items: seq<(string, string)>, name: string)
    ensures name in AsMap(items) <==> exists i :: 0 <= i < |items| && items[i].0 == name
  {
    if items != [] {
      AsMapKeys(items[..|items| - 1], name);
    }
  }

  /** The wrapped sends of a run, one by one, are OnStarts of the run. */
  lemma EachStartChanged(events: seq<Event>, change: Headers -> Headers, out: seq<Event>)
    requires |out| == |events| && forall i :: 0 <= i < |events| ==> out[i] == OnStart(events[i], change)
    ensures out == OnStarts(events, change)
  {
    OnStartsKeepsCount(events, change);
  }

  lemma DefaultsOneMore(defaults: map<string, string>, name: string, value: string, headers: Headers)
    requires name !in defaults
    ensures var before, after := WithDefaults(defaults)(headers), WithDefaults(defaults[name := value])(headers);
            after == if name in before then before else before[name := [value]]
  {}

  class SecurityHeadersMiddleware {
    const toAdd: seq<(string, string)>

    constructor (path: string, https: bool)
      ensures DistinctNames(toAdd) && AsMap(toAdd) == SecurityHeaders(path, https)
    {
      var base := [("x-content-type-options", "nosniff"), ("referrer-policy", "no-referrer"),
                   ("x-frame-options", "DENY"), ("x-robots-tag", "noindex"),
                   ("content-security-policy", if path in {"/docs", "/redoc"} then DOCS_POLICY else API_POLICY)];
      toAdd := if https then base + [("strict-transport-security", "max-age=31536000; includeSubDomains")] else base;
      new;
      ToAddIsSecurityHeaders(path, https, toAdd);
    }

    method SendWithHeaders(message: Message) returns (out: Message)
      requires DistinctNames(toAdd)
      ensures out == if message.Start? then message.(headers := WithDefaults(AsMap(toAdd))(message.headers)) else message
    {
      out := message;
      if message.Start? {
        var headers := message.headers;
        for i := 0 to |toAdd|
          invariant headers == WithDefaults(AsMap(toAdd[..i]))(message.headers)
        {
          var (name, value) := toAdd[i];
          assert toAdd[..i + 1] == toAdd[..i] + [toAdd[i]];
          AsMapOneMore(toAdd[..i], toAdd[i]);
          AsMapKeys(toAdd[..i], name);
          DefaultsOneMore(AsMap(toAdd[..i]), name, value, message.headers);
          if name !in headers {
            headers := headers[name := [value]];
          }
        }
        assert toAdd[..|toAdd|] == toAdd;
        out := message.(headers := headers);
      }
    }

    method Call(inner: Conduct) returns (outer: Conduct)
      requires DistinctNames(toAdd)
      ensures outer == inner.(events := OnStarts(inner.events, WithDefaults(AsMap(toAdd))))
    {
      var events := [];
      for i := 0 to |inner.events|
        invariant |events| == i
        invariant forall j :: 0 <= j < i ==> events[j] == OnStart(inner.events[j], WithDefaults(AsMap(toAdd)))
      {
        var event := inner.events[i];
        if event.Send? {
          var message := SendWithHeaders(event.message);
          event := event.(message := message);
        }
        events := events + [event];
      }
      EachStartChanged(inner.events, WithDefaults(AsMap(toAdd)), events);
      return inner.(events := events);
    }
  }

  lemma ToAddIsSecurityHeaders(path: string, https: bool, toAdd: seq<(string, string)>)
    requires var base := [("x-content-type-options", "nosniff"), ("referrer-policy", "no-referrer"),
                          ("x-frame-options", "DENY"), ("x-robots-tag", "noindex"),
                          ("content-security-policy", if path in {"/docs", "/redoc"} then DOCS_POLICY else API_POLICY)];
             toAdd == if https then base + [("strict-transport-security", "max-age=31536000; includeSubDomains")] else base
    ensures DistinctNames(toAdd) && AsMap(toAdd) == SecurityHeaders(path, https)
  {
    NamesApart();
    var base := toAdd[..5];
    FiveItems(base[0], base[1], base[2], base[3], base[4]);
    assert base == [base[0], base[1], base[2], base[3], base[4]];
    if https {
      assert toAdd == base + [toAdd[5]];
      AsMapOneMore(base, toAdd[5]);
    } else {
      assert toAdd == base;
    }
  }

  lemma AsMapOneMore(items: seq<(string, string)>, item: (string, string))
    ensures AsMap(items + [item]) == AsMap(items)[item.0 := item.1]
  {
    assert (items + [item])[..|items|] == items;
  }

  lemma FiveItems(a: (string, string), b: (string, string), c: (string, string), d: (string, string), e: (string, string))
    ensures AsMap([a, b, c, d, e]) == map[a.0 := a.1, b.0 := b.1, c.0 := c.1, d.0 := d.1, e.0 := e.1]
  {
    AsMapOneMore([], a);
    AsMapOneMore([a], b);
    AsMapOneMore([a, b], c);
    AsMapOneMore([a, b, c], d);
    AsMapOneMore([a, b, c, d], e);
    assert [] + [a] == [a] && [a] + [b] == [a, b] && [a, b] + [c] == [a, b, c];
    assert [a, b, c] + [d] == [a, b, c, d] && [a, b, c, d] + [e] == [a, b, c, d, e];
  }

  lemma NamesApart()
    ensures DistinctNames([("x-content-type-options", ""), ("referrer-policy", ""), ("x-frame-options", ""),
                           ("x-robots-tag", ""), ("content-security-policy", ""), ("strict-transport-security", "")])
  {
    assert |"x-content-type-options"| == 22 && |"referrer-policy"| == 15 && |"x-frame-options"| == 15;
    assert |"x-robots-tag"| == 12 && |"content-security-policy"| == 23 && |"strict-transport-security"| == 25;
    assert "referrer-policy"[0] != "x-frame-options"[0];
  }

  // ---- request IDs ---------------------------------------------------------------------------------

  predicate Plain(c: char) {
    'A' <= c <= 'Z' || 'a' <= c <= 'z' || '0' <= c <= '9' || c == '.' || c == '_' || c == '-'
  }

  predicate SafeRequestId(id: string) {
    1 <= |id| <= 64 && forall c :: c in id ==> Plain(c)
  }

  /** `newId` is a new uuid4's 32 hex digits. */
  function ResolveRequestId(incoming: Option<string>, newId: string): (id: string)
    requires SafeRequestId(newId)
    ensures SafeRequestId(id)
    ensures id != newId ==> incoming == Some(id)
    ensures incoming.Some? && SafeRequestId(incoming.value) ==> id == incoming.value
  {
    if incoming.Some? && SafeRequestId(incoming.value) then incoming.value else newId
  }

  /** The first header called `name`. */
  ghost predicate IsFirst(headers: seq<(string, string)>, name: string, value: Option<string>) {
    match value
    case None => forall i :: 0 <= i < |headers| ==> headers[i].0 != name
    case Some(v) =>
      exists i :: 0 <= i < |headers| && headers[i] == (name, v) && forall j :: 0 <= j < i ==> headers[j].0 != name
  }

  method FirstHeader(headers: seq<(string, string)>, name: string) returns (value: Option<string>)
    ensures IsFirst(headers, name, value)
  {
    for i := 0 to |headers|
      invariant forall j :: 0 <= j < i ==> headers[j].0 != name
    {
      if headers[i].0 == name {
        return Some(headers[i].1);
      }
    }
    return None;
  }

  class RequestIdMiddleware {
    var requestId: string

    constructor (newId: string)
      requires SafeRequestId(newId)
      ensures requestId == newId
    {
      requestId := newId;
    }

    method SendWithRequestId(message: Message) returns (out: Message)
      ensures out == if message.Start? then message.(headers := WithRequestId(requestId)(message.headers)) else message
    {
      out := message;
      if message.Start? {
        out := message.(headers := message.headers["x-request-id" := [requestId]]);
      }
    }

    method Call(headers: seq<(string, string)>, newId: string, inner: Conduct) returns (outer: Conduct)
      requires SafeRequestId(newId)
      modifies this
      ensures SafeRequestId(requestId)
      ensures requestId == newId || IsFirst(headers, "x-request-id", Some(requestId))
      ensures forall id :: IsFirst(headers, "x-request-id", Some(id)) && SafeRequestId(id) ==> requestId == id
      ensures 1 <= |requestId| <= 64
      ensures forall c :: c in requestId ==> c in "._-" || '0' <= c <= '9' || 'A' <= c <= 'Z' || 'a' <= c <= 'z'
      ensures outer == inner.(events := OnStarts(inner.events, WithRequestId(requestId)))
    {
      var incoming := FirstHeader(headers, "x-request-id");
      var id := ResolveRequestId(incoming, newId);
      requestId := id;
      var events := [];
      for i := 0 to |inner.events|
        invariant requestId == id
        invariant |events| == i
        invariant forall j :: 0 <= j < i ==> events[j] == OnStart(inner.events[j], WithRequestId(requestId))
      {
        var event := inner.events[i];
        if event.Send? {
          var message := SendWithRequestId(event.message);
          event := event.(message := message);
        }
        events := events + [event];
      }
      EachStartChanged(inner.events, WithRequestId(requestId), events);
      return inner.(events := events);
    }
  }

  // ---- the catch -----------------------------------------------------------------------------------

  class UnexpectedErrorMiddleware {
    var started: bool

    constructor ()
      ensures !started
    {
      started := false;
    }

    /** Noted before the send itself, so a start that fails to go out counts as started. */
    method SendNotingStart(message: Message) returns (out: Message)
      modifies this
      ensures out == message && started == (old(started) || message.Start?)
    {
      if message.Start? {
        started := true;
      }
      return message;
    }

    method Call(inner: Conduct, size: nat, fates: Fates) returns (outer: Conduct)
      modifies this
      ensures outer == Caught(inner, size, fates)
      ensures started <==> Starts(inner.events) > 0
    {
      started := false;
      var events := [];
      for i := 0 to |inner.events|
        invariant events == inner.events[..i]
        invariant started <==> Starts(inner.events[..i]) > 0
      {
        var event := inner.events[i];
        assert inner.events[..i + 1] == inner.events[..i] + [event];
        StartsConcat(inner.events[..i], [event]);
        if event.Send? {
          var message := SendNotingStart(event.message);
          event := event.(message := message);
        }
        events := events + [event];
      }
      assert inner.events[..|inner.events|] == inner.events;
      if inner.end.Raised? && inner.end.error.Failure? && !started {
        var answer := Answer(500, PROBLEM_HEADERS, size, fates);
        return Conduct(events + answer.events, answer.end);
      }
      return Conduct(events, inner.end);
    }
  }

  // ---- the body limit ------------------------------------------------------------------------------

  class BodyLimitMiddleware {
    const maxBytes: nat
    var received: nat

    constructor (maxBytes: nat)
      ensures this.maxBytes == maxBytes && received == 0
    {
      this.maxBytes := maxBytes;
      received := 0;
    }

    /** `number` is Python's int() on the header's bytes, None where it raises. */
    method DeclaredLength(headers: seq<(string, string)>, number: string -> Option<int>) returns (declared: Option<int>)
      ensures exists value :: IsFirst(headers, "content-length", value)
                              && declared == if value.Some? then number(value.value) else None
    {
      var value := FirstHeader(headers, "content-length");
      declared := if value.Some? then number(value.value) else None;
      assert IsFirst(headers, "content-length", value);
    }

    method ReceiveCounting(arrival: Arrival) returns (r: Result<Arrival, Error>)
      modifies this
      ensures received == old(received) + Size(arrival)
      ensures r == if arrival.Request? && received > maxBytes then Err(TOO_LARGE) else Ok(arrival)
    {
      if arrival.Request? {
        received := received + arrival.size;
        if received > maxBytes {
          return Err(TOO_LARGE);
        }
      }
      return Ok(arrival);
    }

    /** The app is handed at most maxBytes, and nothing at all when more was declared. */
    method Call(declared: Option<int>, inner: Conduct, size: nat, fates: Fates)
      returns (outer: Conduct, handed: seq<Result<Arrival, Error>>)
      modifies this
      ensures outer == Limited(declared, maxBytes, inner, size, fates)
      ensures declared.Some? && declared.value > maxBytes && fates == Fates(None, None) ==> OneAnswer(outer, 413)
      ensures declared.None? || declared.value <= maxBytes ==> outer == inner
      ensures handed == if declared.Some? && declared.value > maxBytes then [] else Handed(inner.events, 0, maxBytes)
      ensures Bytes(handed) <= maxBytes
    {
      handed := [];
      if declared.Some? && declared.value > maxBytes {
        return Answer(413, PROBLEM_HEADERS, size, fates), handed;
      }
      received := 0;
      assert inner.events[0..] == inner.events;
      for i := 0 to |inner.events|
        invariant handed + Handed(inner.events[i..], received, maxBytes) == Handed(inner.events, 0, maxBytes)
      {
        assert inner.events[i..][1..] == inner.events[i + 1..];
        if inner.events[i].Read? {
          var r := ReceiveCounting(inner.events[i].arrival);
          assert handed + ([r] + Handed(inner.events[i + 1..], received, maxBytes))
              == (handed + [r]) + Handed(inner.events[i + 1..], received, maxBytes);
          handed := handed + [r];
        }
      }
      HandedWithinTheLimit(inner.events, 0, maxBytes);
      return inner, handed;
    }
  }

  // ---- the layers as installed ---------------------------------------------------------------------

  /** One request through the layers of app/main.py: added first is innermost, added last is
      outermost. The setting is what the request and the process made of each layer. */
  method Serve(headers: seq<(string, string)>, number: string -> Option<int>, newId: string, path: string, https: bool,
               limit: nat, refusal: (nat, Fates), slow: Library, admission: Admission, apology: (nat, Fates),
               cors: Library, route: Conduct)
    returns (left: Conduct, handed: seq<Result<Arrival, Error>>, setting: Setting)
    requires SafeRequestId(newId)
    ensures left == Leaves(setting, route)
    ensures setting == Setting(setting.declared, limit, refusal, slow, admission, apology, cors, setting.requestId, path, https)
    ensures SafeRequestId(setting.requestId)
    ensures setting.requestId == newId || IsFirst(headers, "x-request-id", Some(setting.requestId))
    ensures exists value :: IsFirst(headers, "content-length", value)
                            && setting.declared == if value.Some? then number(value.value) else None
    ensures Bytes(handed) <= limit
    ensures setting.declared.Some? && setting.declared.value > limit ==> handed == []
    ensures setting.declared.Some? && setting.declared.value > limit && admission.LetIn?
            && slow.Decorates? && cors.Decorates? && refusal.1 == Fates(None, None) ==>
              OneAnswer(left, 413)
    ensures admission.Shed? && cors.Decorates? && admission.fates == Fates(None, None) ==> OneAnswer(left, 503)
  {
    var bodyLimit := new BodyLimitMiddleware(limit);
    var declared := bodyLimit.DeclaredLength(headers, number);
    var conduct;
    conduct, handed := bodyLimit.Call(declared, route, refusal.0, refusal.1);
    conduct := Admitted(admission, Through(slow, conduct));
    var unexpected := new UnexpectedErrorMiddleware();
    conduct := unexpected.Call(conduct, apology.0, apology.1);
    conduct := Through(cors, conduct);
    var requestId := new RequestIdMiddleware(newId);
    conduct := requestId.Call(headers, newId, conduct);
    var security := new SecurityHeadersMiddleware(path, https);
    left := security.Call(conduct);
    setting := Setting(declared, limit, refusal, slow, admission, apology, cors, requestId.requestId, path, https);
    if setting.declared.Some? && setting.declared.value > limit {
      DeclaredTooLargeIsRefused(setting, route, route);
    }
    if admission.Shed? {
      ShedIsRefused(setting, route, route);
    }
  }
}

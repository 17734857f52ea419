/**
 The records the idempotency store keeps, and the values the route builds from them
 (app/core/idempotency.py, app/core/idempotent_route.py).

 Times are whole milliseconds, the resolution Redis expires keys with.
 */
module IdempotencyRecords {
  import opened Wrappers

  const IN_FLIGHT_TTL := 60_000
  const COMPLETED_TTL := 86_400_000
  const MAX_STORABLE_STATUS := 500
  const REPLAYABLE_HEADERS := {"location", "content-type"}
  const REPLAYED_HEADER := "idempotency-replayed"

  // Header names are lower-case, as Starlette compares them.
  type Headers = map<string, string>

  /** What the endpoint's response holds in `body`: a streaming response has none,
      and bytes that are not UTF-8 cannot be turned into the stored text. */
  datatype Body = Streaming | Text(text: string) | NotUtf8

  datatype Response = Response(status: int, body: Body, headers: Headers)

  datatype StoredResponse = StoredResponse(status: int, body: string, headers: Headers)

  datatype Record =
    | InFlight(fingerprint: string)
    | Done(fingerprint: string, response: StoredResponse)

  /** The route stores an answer that has a body and is not a server fault. */
  predicate Storable(response: Response) {
    !response.body.Streaming? && response.status < MAX_STORABLE_STATUS
  }

  function ToStored(response: Response): StoredResponse
    requires response.body.Text?
  {
    StoredResponse(
      response.status,
      response.body.text,
      map name | name in REPLAYABLE_HEADERS && name in response.headers :: response.headers[name])
  }

  /** str.lower on a header's value, as far as ASCII goes. */
  function Lower(s: string): string {
    seq(|s|, i requires 0 <= i < |s| => if 'A' <= s[i] <= 'Z' then s[i] - 'A' + 'a' else s[i])
  }

  predicate PartAt(s: string, i: nat, part: string) {
    i + |part| <= |s| && s[i..i + |part|] == part
  }

  predicate Contains(s: string, part: string) {
    exists i :: 0 <= i <= |s| && PartAt(s, i, part)
  }

  /** A text type that names no charset, to which Starlette adds its own. */
  predicate LacksCharset(media: string) {
    "text/" <= media && !Contains(Lower(media), "charset=")
  }

  function WithCharset(media: string): string {
    if LacksCharset(media) then media + "; charset=utf-8" else media
  }

  /** The answer rebuilt from the store. The stored content type becomes the media type, which
      Starlette writes back as the same header, with a charset where a text type has none. (The
      content length, which Starlette works out from the body, is not kept here.) */
  function Replay(stored: StoredResponse): Response {
    var media := if "content-type" in stored.headers then
                   map["content-type" := WithCharset(stored.headers["content-type"])]
                 else map[];
    var rest := (stored.headers - {"content-type"})[REPLAYED_HEADER := "true"];
    Response(stored.status, Text(stored.body), rest + media)
  }

  /** A replay is the original answer: same status, same body, the same allow-listed headers,
      nothing else but the mark that says it was replayed. Their values are the same exactly
      unless the content type was a text type that named no charset. */
  lemma ReplayIsTheOriginalAnswer(response: Response)
    requires response.body.Text?
    ensures var again := Replay(ToStored(response));
            && again.status == response.status
            && again.body == response.body
            && (forall name :: name in {"location", "content-type"} ==> (name in again.headers <==> name in response.headers))
            && ((forall name :: name in {"location", "content-type"} && name in response.headers ==>
                  again.headers[name] == response.headers[name])
                <==> !("content-type" in response.headers && LacksCharset(response.headers["content-type"])))
            && ("location" in response.headers ==> again.headers["location"] == response.headers["location"])
            && again.headers.Keys <= {"location", "content-type", "idempotency-replayed"}
            && "idempotency-replayed" in again.headers
            && again.headers["idempotency-replayed"] == "true"
            && ("content-type" in response.headers && LacksCharset(response.headers["content-type"]) ==>
                 again.headers["content-type"] == response.headers["content-type"] + "; charset=utf-8")
  {
    var stored := ToStored(response);
    var again := Replay(stored);
    assert again.headers.Keys == stored.headers.Keys + {REPLAYED_HEADER};
    NamesApart();
    if "content-type" in response.headers {
      assert again.headers["content-type"] == WithCharset(response.headers["content-type"]);
      assert |"; charset=utf-8"| == 15;
    }
  }

  lemma NamesApart()
    ensures REPLAYED_HEADER !in REPLAYABLE_HEADERS && "location" != "content-type"
  {
    assert REPLAYED_HEADER[0] == 'i' && "location"[0] == 'l' && "content-type"[0] == 'c';
  }
}

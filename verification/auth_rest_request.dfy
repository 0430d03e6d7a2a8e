/** AuthRestRequest.kt: JSON calls that refresh the tokens once and retry
    once when the first attempt fails to authenticate, over the JSON
    wrappers of RestRequest.kt.

    Every network answer is an input: the exchange of the first attempt,
    the answer of the token endpoint, and the exchange of the retry. Gson
    is the `decode` parameter and the rendered request body a string. */
module AuthRest {
  import opened Wrappers
  import opened WebRequest
  import TeslaAuth

  /** The headers `postJson` passes to `post`. */
  const JsonAccept: string := "application/json, text/plain, */*"
  const JsonContentType: string := "application/json"

  function JsonHeaders(): (h: Headers)
    ensures h.Keys == {AcceptHeader, ContentTypeHeader}
    ensures h[AcceptHeader] == JsonAccept && h[ContentTypeHeader] == JsonContentType
  {
    map[AcceptHeader := JsonAccept, ContentTypeHeader := JsonContentType]
  }

  /** What Gson makes of a response text: a value (null for an empty
      document) or a syntax error. */
  datatype Decoded<T> = Parsed(value: Option<T>) | Malformed

  /** One `RestRequest.getJSON` / `postJson` attempt after the transport
      answered. */
  function Fetch<T>(reply: Result<string>, decode: string -> Decoded<T>): (r: Result<Option<T>>)
    ensures reply.Err? ==> r == Err(reply.failure)
    ensures reply.Ok? ==> (r.Err? <==> decode(reply.value).Malformed?)
    ensures r.Err? && reply.Ok? ==> r.failure == Codec
    ensures r.Ok? ==> reply.Ok? && decode(reply.value) == Parsed(r.value)
  {
    var text :- reply;
    match decode(text)
    case Parsed(v) => Ok(v)
    case Malformed => Err(Codec)
  }

  /** A decoding error is never an authentication failure: only the
      transport raises one. */
  lemma FetchAuthenticationFromTransport<T>(reply: Result<string>, decode: string -> Decoded<T>)
    ensures Fetch(reply, decode) == Err(Authentication) <==> reply == Err(Authentication)
  {
  }

  /** The collaborators an `AuthRestRequest` holds: the transport state of
      its `RestRequest` and the token state of its `TeslaAuth`. */
  datatype Client = Client(transport: Transport, auth: TeslaAuth.Session)

  /** The result of a call, the client state after it, and how many
      attempts and token refreshes it made. */
  datatype Outcome<T> = Outcome(result: Result<Option<T>>, client: Client, attempts: nat, refreshes: nat)

  /** The client after a refresh. */
  function Refreshed(c: Client, refreshReply: Result<Option<TeslaAuth.TokenResponse>>): Result<Client>
  {
    var r :- TeslaAuth.RefreshTokens(c.auth, c.transport, refreshReply);
    Ok(Client(r.transport, r.session))
  }

  /** The `try { … } catch (e: AuthenticationException) { refresh; retry }`
      shape shared by `getJSON` and `postJson`. `second` is the retry's
      result on the refreshed client. */
  function Retry<T>(c: Client, first: Result<Option<T>>, refreshReply: Result<Option<TeslaAuth.TokenResponse>>,
                    second: Result<Option<T>>): (o: Outcome<T>)
    ensures 1 <= o.attempts <= 2 && o.refreshes <= 1
    ensures o.refreshes == 1 <==> first == Err(Authentication)
    ensures o.attempts == 2 <==> first == Err(Authentication) && Refreshed(c, refreshReply).Ok?
    ensures first != Err(Authentication) ==> o.result == first && o.client == c
    ensures first == Err(Authentication) && Refreshed(c, refreshReply).Err? ==>
              o.result == Err(Refreshed(c, refreshReply).failure) && o.client == c
    ensures o.attempts == 2 ==> o.result == second && o.client == Refreshed(c, refreshReply).value
  {
    if first != Err(Authentication) then Outcome(first, c, 1, 0)
    else
      match Refreshed(c, refreshReply)
      case Err(f) => Outcome(Err(f), c, 1, 1)
      case Ok(c') => Outcome(second, c', 2, 1)
  }

  /** A call together with the requests it sent, in order. */
  datatype Call<T> = Call(outcome: Outcome<T>, sent: seq<Request>)

  /** `getJSON`: the GET sends no headers of its own (the JSON headers
      `RestRequest.getJSON` builds are never passed on). */
  function GetJson<T>(c: Client, url: string, first: Exchange, refreshReply: Result<Option<TeslaAuth.TokenResponse>>,
                      second: Exchange, decode: string -> Decoded<T>): (call: Call<T>)
    ensures 1 <= |call.sent| == call.outcome.attempts <= 2 && call.outcome.refreshes <= 1
    ensures forall i :: 0 <= i < |call.sent| ==>
              call.sent[i].verb == GET && call.sent[i].url == url && call.sent[i].payload.None?
    ensures call.sent[0] == GetRequest(c.transport, url, None)
    ensures |call.sent| == 2 ==> call.sent[1] == GetRequest(call.outcome.client.transport, url, None)
  {
    var o := Retry(c, Fetch(ClassifyGet(first), decode), refreshReply, Fetch(ClassifyGet(second), decode));
    var retry := if o.attempts == 2 then [GetRequest(o.client.transport, url, None)] else [];
    Call(o, [GetRequest(c.transport, url, None)] + retry)
  }

  /** `postJson`: the rendered body is posted with the JSON headers. */
  function PostJson<T>(c: Client, url: string, body: string, first: Exchange,
                       refreshReply: Result<Option<TeslaAuth.TokenResponse>>,
                       second: Exchange, decode: string -> Decoded<T>): (call: Call<T>)
    ensures 1 <= |call.sent| == call.outcome.attempts <= 2 && call.outcome.refreshes <= 1
    ensures forall i :: 0 <= i < |call.sent| ==> call.sent[i].verb == POST && call.sent[i].url == url
    ensures call.sent[0] == PostRequest(c.transport, url, Some(body), Some(JsonHeaders()))
  {
    var o := Retry(c, Fetch(ClassifyPost(first), decode), refreshReply, Fetch(ClassifyPost(second), decode));
    var retry := if o.attempts == 2 then [PostRequest(o.client.transport, url, Some(body), Some(JsonHeaders()))] else [];
    Call(o, [PostRequest(c.transport, url, Some(body), Some(JsonHeaders()))] + retry)
  }

  /** A first GET that does not fail to authenticate is the whole call:
      one request, no refresh, its result returned. */
  lemma GetWithoutAuthFailure<T>(c: Client, url: string, first: Exchange,
                                 refreshReply: Result<Option<TeslaAuth.TokenResponse>>,
                                 second: Exchange, decode: string -> Decoded<T>)
    requires ClassifyGet(first) != Err(Authentication)
    ensures var call := GetJson(c, url, first, refreshReply, second, decode);
            && call.sent == [GetRequest(c.transport, url, None)]
            && call.outcome.refreshes == 0
            && call.outcome.result == Fetch(ClassifyGet(first), decode)
            && call.outcome.client == c
  {
    FetchAuthenticationFromTransport(ClassifyGet(first), decode);
  }

  /** A GET answered with HTTP 401 refreshes the tokens exactly once. When
      the refresh succeeds the same GET is repeated once with the new
      bearer, and whatever the retry gives is the result, a second 401
      included. */
  lemma Get401RefreshesAndRetries<T>(c: Client, url: string, m: string, refreshReply: Result<Option<TeslaAuth.TokenResponse>>,
                                     second: Exchange, decode: string -> Decoded<T>)
    requires Strings.Contains(m, "401")
    requires Refreshed(c, refreshReply).Ok?
    ensures var call := GetJson(c, url, ReadFailed(Some(m)), refreshReply, second, decode);
            var c' := Refreshed(c, refreshReply).value;
            && call.outcome.refreshes == 1
            && call.sent == [GetRequest(c.transport, url, None), GetRequest(c'.transport, url, None)]
            && call.outcome.result == Fetch(ClassifyGet(second), decode)
            && (ClassifyGet(second) == Err(Authentication) ==> call.outcome.result == Err(Authentication))
            && (c'.auth.accessToken.Some? && c'.auth.accessToken != c.auth.accessToken ==>
                  call.sent[1].headers[AuthorizationHeader] == "Bearer " + c'.auth.accessToken.value)
  {
  }

  /** A failed refresh ends the call: its failure is the result and no
      second request is sent. */
  lemma FailedRefreshStopsRetry<T>(c: Client, url: string, first: Exchange,
                                   refreshReply: Result<Option<TeslaAuth.TokenResponse>>,
                                   second: Exchange, decode: string -> Decoded<T>)
    requires ClassifyGet(first) == Err(Authentication)
    requires Refreshed(c, refreshReply).Err?
    ensures var call := GetJson(c, url, first, refreshReply, second, decode);
            && |call.sent| == 1 && call.outcome.refreshes == 1
            && call.outcome.result == Err(Refreshed(c, refreshReply).failure)
  {
  }

  /** A sleeping car, or any failure other than 401, is passed on at once. */
  lemma SleepingCarPropagates<T>(c: Client, url: string, first: Exchange,
                                 refreshReply: Result<Option<TeslaAuth.TokenResponse>>,
                                 second: Exchange, decode: string -> Decoded<T>)
    requires ClassifyGet(first) == Err(SleepingCar)
    ensures var call := GetJson(c, url, first, refreshReply, second, decode);
            && call.outcome == Outcome(Err(SleepingCar), c, 1, 0) && |call.sent| == 1
  {
  }

  /** `post` never reports an authentication failure, so `postJson` never
      refreshes or retries, whatever the server answers, HTTP 401
      included. */
  lemma PostJsonNeverRetries<T>(c: Client, url: string, body: string, first: Exchange,
                                refreshReply: Result<Option<TeslaAuth.TokenResponse>>,
                                second: Exchange, decode: string -> Decoded<T>)
    ensures var call := PostJson(c, url, body, first, refreshReply, second, decode);
            && call.outcome.refreshes == 0 && |call.sent| == 1
            && call.outcome.result == Fetch(ClassifyPost(first), decode)
            && call.outcome.client == c
  {
    FetchAuthenticationFromTransport(ClassifyPost(first), decode);
  }

  /** The JSON headers of `postJson` win over the form defaults of `post`,
      and the rendered body is always written (Gson renders null as
      "null"). */
  lemma PostJsonSendsJson<T>(c: Client, url: string, body: string, first: Exchange,
                             refreshReply: Result<Option<TeslaAuth.TokenResponse>>,
                             second: Exchange, decode: string -> Decoded<T>)
    requires |body| > 0
    ensures var q := PostJson(c, url, body, first, refreshReply, second, decode).sent[0];
            && q.headers[ContentTypeHeader] == JsonContentType
            && q.headers[AcceptHeader] == JsonAccept
            && q.payload == Some(body)
  {
  }

  /** The GET of `getJSON` carries the plain defaults: it accepts any
      media type. */
  lemma GetJsonAcceptsAnything<T>(c: Client, url: string, first: Exchange,
                                  refreshReply: Result<Option<TeslaAuth.TokenResponse>>,
                                  second: Exchange, decode: string -> Decoded<T>)
    ensures var q := GetJson(c, url, first, refreshReply, second, decode).sent[0];
            q.headers[AcceptHeader] == "*/*" && ContentTypeHeader !in q.headers
  {
  }

  /** A call that forwards to the transport once. */
  datatype Forwarded = Forwarded(result: Result<string>, sent: seq<Request>)

  /** `get`: forwarded once; an authentication failure is passed on. */
  function Get(c: Client, url: string, caller: Option<Headers>, x: Exchange): (f: Forwarded)
    ensures f.sent == [GetRequest(c.transport, url, caller)]
    ensures f.result.Ok? <==> x.Delivered?
  {
    Forwarded(ClassifyGet(x), [GetRequest(c.transport, url, caller)])
  }

  /** `post`: forwarded once. */
  function Post(c: Client, url: string, body: Option<string>, caller: Option<Headers>, x: Exchange): (f: Forwarded)
    ensures f.sent == [PostRequest(c.transport, url, body, caller)]
    ensures f.result.Ok? <==> x.Delivered?
  {
    Forwarded(ClassifyPost(x), [PostRequest(c.transport, url, body, caller)])
  }

  /** `setBearer`: only the transport's bearer changes. */
  function SetClientBearer(c: Client, b: Option<string>): (c': Client)
    ensures c'.transport.bearer == b && c'.transport.cookies == c.transport.cookies && c'.auth == c.auth
  {
    c.(transport := SetBearer(c.transport, b))
  }

  /** Unlike `getJSON`, a plain `get` answered with HTTP 401 reports the
      failure without refreshing. */
  lemma PlainGetDoesNotRetry(c: Client, url: string, caller: Option<Headers>, m: string)
    requires Strings.Contains(m, "401")
    ensures Get(c, url, caller, ReadFailed(Some(m))).result == Err(Authentication)
    ensures |Get(c, url, caller, ReadFailed(Some(m))).sent| == 1
  {
  }
}

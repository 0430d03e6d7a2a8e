/** The HTTP transport of WebRequest.kt, without the network: the headers
    a request carries, which body it writes, and how the outcome of
    reading the response becomes a value or an exception.

    A connection is reduced to the request it would send; the network's
    answer is an `Exchange` given as a parameter. */
module WebRequest {
  import opened Wrappers
  import opened Strings

  /** Request properties, by name. */
  type Headers = map<string, string>

  const AcceptHeader: string := "Accept"
  const UserAgentHeader: string := "User-Agent"
  const ContentTypeHeader: string := "Content-Type"
  const ContentLengthHeader: string := "Content-Length"
  const AuthorizationHeader: string := "Authorization"
  const CookieHeader: string := "Cookie"

  const UserAgent: string := "TeslaCharging"
  const FormContentType: string := "application/x-www-form-urlencoded"
  const CookieSeparator: string := "; "

  const ReadTimeoutMillis: int := 30000
  const ConnectTimeoutMillis: int := 15000

  /** The mutable state a request reads: the bearer token and the rendered
      cookies of the shared cookie store. */
  datatype Transport = Transport(bearer: Option<string>, cookies: seq<string>)

  /** `setBearer`. */
  function SetBearer(t: Transport, b: Option<string>): (r: Transport)
    ensures r.bearer == b && r.cookies == t.cookies
  {
    t.(bearer := b)
  }

  // ---------------------------------------------------------------------
  // join
  // ---------------------------------------------------------------------

  /** The companion `join`: each item followed by the separator unless it
      is the last one. A null or empty list gives "". */
  method JoinItems(separator: string, input: Option<seq<string>>) returns (r: string)
    ensures input.None? ==> r == ""
    ensures input.Some? ==> r == Join(separator, input.value)
  {
    if input.None? || |input.value| <= 0 {
      return "";
    }
    var items := input.value;
    var sb := "";
    var i := 0;
    while i < |items|
      invariant 0 <= i <= |items|
      invariant i == 0 ==> sb == ""
      invariant 0 < i < |items| ==> sb == Join(separator, items[..i]) + separator
      invariant i == |items| ==> sb == Join(separator, items)
    {
      if i > 0 {
        assert items[..i + 1] == items[..i] + [items[i]];
        JoinSnoc(separator, items[..i], items[i]);
      } else {
        assert items[..1] == [items[0]];
      }
      sb := sb + items[i];
      if i != |items| - 1 {
        sb := sb + separator;
      }
      if i + 1 == |items| {
        assert items[..i + 1] == items;
      }
      i := i + 1;
    }
    return sb;
  }

  /** A joined list starts with its first item and ends with its last:
      there is no leading or trailing separator. */
  lemma {:induction false} JoinFrame(sep: string, items: seq<string>)
    requires |items| > 0
    ensures var j := Join(sep, items);
            && |items[0]| <= |j| && j[..|items[0]|] == items[0]
            && |items[|items| - 1]| <= |j| && j[|j| - |items[|items| - 1]|..] == items[|items| - 1]
  {
    if |items| > 1 {
      JoinFrame(sep, items[1..]);
      var j := Join(sep, items);
      var rest := Join(sep, items[1..]);
      assert j == items[0] + sep + rest;
      assert items[1..][|items[1..]| - 1] == items[|items| - 1];
      assert j[|j| - |rest|..] == rest;
    }
  }

  // ---------------------------------------------------------------------
  // Headers
  // ---------------------------------------------------------------------

  /** The properties `get` sets before `enrichConnection`. */
  function GetBaseHeaders(): (h: Headers)
    ensures h.Keys == {AcceptHeader, UserAgentHeader}
    ensures h[AcceptHeader] == "*/*" && h[UserAgentHeader] == UserAgent
  {
    map[AcceptHeader := "*/*", UserAgentHeader := UserAgent]
  }

  /** A body is written only when it is non-null and non-empty. */
  predicate HasBody(body: Option<string>)
  {
    body.Some? && |body.value| > 0
  }

  /** The properties `post` sets before `enrichConnection`. */
  function PostBaseHeaders(body: Option<string>): (h: Headers)
    ensures h.Keys == {AcceptHeader, ContentTypeHeader, UserAgentHeader}
                      + (if HasBody(body) then {ContentLengthHeader} else {})
    ensures h[AcceptHeader] == "*/*" && h[ContentTypeHeader] == FormContentType && h[UserAgentHeader] == UserAgent
    ensures HasBody(body) ==> h[ContentLengthHeader] == DecimalString(Utf16Length(body.value))
  {
    var h := map[AcceptHeader := "*/*", ContentTypeHeader := FormContentType];
    var h' := if HasBody(body) then h[ContentLengthHeader := DecimalString(Utf16Length(body.value))] else h;
    h'[UserAgentHeader := UserAgent]
  }

  /** The Content-Length a POST sets reads back as the length of the body
      it writes, counted in UTF-16 code units. */
  lemma ContentLengthRoundTrip(body: string)
    requires |body| > 0
    ensures var h := PostBaseHeaders(Some(body));
            && (forall i :: 0 <= i < |h[ContentLengthHeader]| ==> IsDigit(h[ContentLengthHeader][i]))
            && DecimalValue(h[ContentLengthHeader]) == Utf16Length(body)
  {
    DecimalRoundTrip(Utf16Length(body));
  }

  /** `enrichConnection`: the caller's headers over `base`, then the bearer
      over both, then the cookie store. */
  function Enrich(base: Headers, caller: Option<Headers>, t: Transport): (h: Headers)
    ensures forall k :: k in h <==>
              || k in base
              || (caller.Some? && k in caller.value)
              || (k == AuthorizationHeader && t.bearer.Some?)
              || (k == CookieHeader && |t.cookies| > 0)
    ensures t.bearer.Some? ==> h[AuthorizationHeader] == "Bearer " + t.bearer.value
    ensures |t.cookies| > 0 ==> h[CookieHeader] == Join(CookieSeparator, t.cookies)
    ensures forall k :: k in h && k != AuthorizationHeader && k != CookieHeader ==>
              h[k] == (if caller.Some? && k in caller.value then caller.value[k] else base[k])
  {
    var withCaller := if caller.Some? then base + caller.value else base;
    var withBearer := if t.bearer.Some? then withCaller[AuthorizationHeader := "Bearer " + t.bearer.value] else withCaller;
    if |t.cookies| > 0 then withBearer[CookieHeader := Join(CookieSeparator, t.cookies)] else withBearer
  }

  /** The layers `enrichConnection` applies, oldest first. */
  function Layers(base: Headers, caller: Option<Headers>, t: Transport): seq<Headers>
  {
    [ base,
      caller.GetOr(map[]),
      if t.bearer.Some? then map[AuthorizationHeader := "Bearer " + t.bearer.value] else map[],
      if |t.cookies| > 0 then map[CookieHeader := Join(CookieSeparator, t.cookies)] else map[] ]
  }

  /** Last writer wins: the value of `k` in the latest layer that sets it. */
  function Winner(layers: seq<Headers>, k: string): (w: Option<string>)
    ensures w.None? <==> forall i :: 0 <= i < |layers| ==> k !in layers[i]
  {
    if |layers| == 0 then None
    else if k in layers[|layers| - 1] then Some(layers[|layers| - 1][k])
    else Winner(layers[..|layers| - 1], k)
  }

  /** `enrichConnection` is the last-writer-wins overlay of its layers. */
  lemma EnrichIsLastWriterWins(base: Headers, caller: Option<Headers>, t: Transport, k: string)
    ensures var h := Enrich(base, caller, t);
            var w := Winner(Layers(base, caller, t), k);
            && (k in h <==> w.Some?)
            && (k in h ==> h[k] == w.value)
  {
    var ls := Layers(base, caller, t);
    var l1, l2, l3 := ls[..1], ls[..2], ls[..3];
    assert l1[..0] == [];
    assert l2[..1] == l1 && l3[..2] == l2 && ls[..3] == l3;
    assert Winner(l1, k) == (if k in base then Some(base[k]) else None);
    assert l2[1] == ls[1] && l3[2] == ls[2];
    assert Winner(l2, k) == (if k in ls[1] then Some(ls[1][k]) else Winner(l1, k));
    assert Winner(l3, k) == (if k in ls[2] then Some(ls[2][k]) else Winner(l2, k));
    assert Winner(ls, k) == (if k in ls[3] then Some(ls[3][k]) else Winner(l3, k));
  }

  // ---------------------------------------------------------------------
  // Requests
  // ---------------------------------------------------------------------

  datatype Method = GET | POST

  /** What a connection is set up with: the verb, URL, request properties,
      payload and timeouts. */
  datatype Request = Request(
    verb: Method,
    url: string,
    headers: Headers,
    payload: Option<string>,     // the body written to the output stream, if any
    readTimeoutMillis: int,
    connectTimeoutMillis: int)

  /** The request `get(url, headers)` sends. */
  function GetRequest(t: Transport, url: string, caller: Option<Headers>): (q: Request)
    ensures q.verb == GET && q.url == url && q.payload.None?
    ensures q.headers == Enrich(GetBaseHeaders(), caller, t)
    ensures q.readTimeoutMillis == 30000 && q.connectTimeoutMillis == 15000
  {
    Request(GET, url, Enrich(GetBaseHeaders(), caller, t), None, ReadTimeoutMillis, ConnectTimeoutMillis)
  }

  /** The request `post(url, body, headers)` sends. */
  function PostRequest(t: Transport, url: string, body: Option<string>, caller: Option<Headers>): (q: Request)
    ensures q.verb == POST && q.url == url
    ensures q.payload.Some? <==> HasBody(body)
    ensures q.payload.Some? ==> q.payload.value == body.value
    ensures q.headers == Enrich(PostBaseHeaders(body), caller, t)
    ensures q.readTimeoutMillis == 30000 && q.connectTimeoutMillis == 15000
  {
    var payload := if HasBody(body) then body else None;
    Request(POST, url, Enrich(PostBaseHeaders(body), caller, t), payload, ReadTimeoutMillis, ConnectTimeoutMillis)
  }

  /** Unless the caller sets Content-Length itself, a POST sets one exactly
      when it writes a body, and it is the body's UTF-16 length. */
  lemma PostAnnouncesPayload(t: Transport, url: string, body: Option<string>, caller: Option<Headers>)
    requires caller.None? || ContentLengthHeader !in caller.value
    ensures var q := PostRequest(t, url, body, caller);
            && (ContentLengthHeader in q.headers <==> q.payload.Some?)
            && (q.payload.Some? ==> q.headers[ContentLengthHeader] == DecimalString(Utf16Length(q.payload.value)))
  {
  }

  /** After `setBearer(b)` every request carries `Authorization: Bearer b`,
      whatever the caller asked for. */
  lemma BearerAuthorizesRequests(t: Transport, b: string, url: string, body: Option<string>, caller: Option<Headers>)
    ensures GetRequest(SetBearer(t, Some(b)), url, caller).headers[AuthorizationHeader] == "Bearer " + b
    ensures PostRequest(SetBearer(t, Some(b)), url, body, caller).headers[AuthorizationHeader] == "Bearer " + b
  {
  }

  // ---------------------------------------------------------------------
  // Outcomes
  // ---------------------------------------------------------------------

  /** What the network did with a request: the response text, a failure
      while opening the response stream (an HTTP error status shows up
      here, in the message), or a failure before that point. */
  datatype Exchange =
    | Delivered(text: string)
    | ReadFailed(message: Option<string>)
    | ConnectFailed(message: Option<string>)

  /** `get`'s handling of the response stream: a read failure whose message
      mentions 401 is an authentication failure, else one mentioning 408 a
      sleeping car; any other failure is rethrown. A read failure without
      a message fails on `message!!`. */
  function ClassifyGet(x: Exchange): (r: Result<string>)
    ensures r.Ok? <==> x.Delivered?
    ensures r.Ok? ==> r.value == x.text
    ensures r == Err(Authentication) <==>
              x.ReadFailed? && x.message.Some? && Contains(x.message.value, "401")
    ensures r == Err(SleepingCar) <==>
              x.ReadFailed? && x.message.Some? && !Contains(x.message.value, "401") && Contains(x.message.value, "408")
    ensures r == Err(NullPointer) <==> x.ReadFailed? && x.message.None?
    ensures x.ConnectFailed? ==> r == Err(Io(x.message))
    ensures x.ReadFailed? && x.message.Some? ==>
              (!Contains(x.message.value, "401") && !Contains(x.message.value, "408") ==> r == Err(Io(x.message)))
  {
    match x
    case Delivered(text) => Ok(text)
    case ConnectFailed(m) => Err(Io(m))
    case ReadFailed(None) => Err(NullPointer)
    case ReadFailed(Some(m)) =>
      if Contains(m, "401") then Err(Authentication)
      else if Contains(m, "408") then Err(SleepingCar)
      else Err(Io(Some(m)))
  }

  /** `post` classifies nothing: every failure is rethrown as it is. */
  function ClassifyPost(x: Exchange): (r: Result<string>)
    ensures r.Ok? <==> x.Delivered?
    ensures r.Ok? ==> r.value == x.text
    ensures r.Err? ==> r.failure == Io(x.message)
  {
    match x
    case Delivered(text) => Ok(text)
    case ReadFailed(m) => Err(Io(m))
    case ConnectFailed(m) => Err(Io(m))
  }

  /** The same HTTP 401 is an authentication failure for `get` and a plain
      I/O failure for `post`. */
  lemma Status401OnlyCaughtByGet(m: string)
    requires Contains(m, "401")
    ensures ClassifyGet(ReadFailed(Some(m))) == Err(Authentication)
    ensures ClassifyPost(ReadFailed(Some(m))) == Err(Io(Some(m)))
  {
  }

  /** The JDK's message for an HTTP 401 is an authentication failure, and
      so is a message that mentions both 401 and 408. */
  lemma StatusMessageExamples()
    ensures ClassifyGet(ReadFailed(Some("Server returned HTTP response code: 401 for URL"))) == Err(Authentication)
    ensures ClassifyGet(ReadFailed(Some("Server returned HTTP response code: 401 for URL: /408"))) == Err(Authentication)
  {
    assert OccursAt("Server returned HTTP response code: 401 for URL", "401", 36);
    assert OccursAt("Server returned HTTP response code: 401 for URL: /408", "401", 36);
  }
}

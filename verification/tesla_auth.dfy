/** The OAuth side of TeslaAuth.kt: the PKCE verifier and challenge
    (section 4 of RFC 7636), the authorize URL and form body, the hidden
    fields of the login page, and the token refresh that rewrites the
    stored tokens.

    `Math.random()` is a sequence of draws in [0, 1); SHA-256 followed by
    Base64 and `URLEncoder.encode` are function parameters. */
module TeslaAuth {
  import opened Wrappers
  import opened Strings
  import opened WebRequest
  import Configuration
  import HiddenFields

  /** The alphabet of random strings: the lower-case letters, the
      upper-case letters, then the digits 1 to 9 and 0. */
  const Chars: string := Letters('a') + Letters('A') + Digits
  const Digits: string := "1234567890"

  /** The 26 letters from `first` on. */
  function Letters(first: char): (r: string)
    requires first == 'a' || first == 'A'
    ensures |r| == 26
    ensures forall i :: 0 <= i < 26 ==> r[i] as int == first as int + i
  {
    seq(26, i requires 0 <= i < 26 => (first as int + i) as char)
  }
  const VerifierLength: nat := 86
  const StateLength: nat := 10

  const ClientId: string := "ownerapi"
  const RedirectUri: string := "https://auth.tesla.com/void/callback"
  const Scope: string := "openid email offline_access"
  const AuthorizeUrl: string := "https://auth.tesla.com/oauth2/v3/authorize"

  // ---------------------------------------------------------------------
  // Random strings (createRandomString)
  // ---------------------------------------------------------------------

  /** `Math.random()` results. */
  predicate ValidDraws(draws: seq<real>)
  {
    forall i :: 0 <= i < |draws| ==> 0.0 <= draws[i] < 1.0
  }

  /** `(Math.random() * chars.length).toInt()`; the product is not
      negative, so truncation is the floor. */
  function DrawIndex(r: real): (i: int)
    requires 0.0 <= r < 1.0
    ensures 0 <= i < |Chars|
  {
    (r * |Chars| as real).Floor
  }

  /** The character a draw selects. */
  function CharOf(r: real): (c: char)
    requires 0.0 <= r < 1.0
    ensures c in Chars
  {
    Chars[DrawIndex(r)]
  }

  /** `createRandomString`: one character per draw, appended in order. A
      negative length makes an empty string. */
  method CreateRandomString(length: int, draws: seq<real>) returns (result: string)
    requires ValidDraws(draws) && length <= |draws|
    ensures |result| == (if length < 0 then 0 else length)
    ensures forall i :: 0 <= i < |result| ==> result[i] == CharOf(draws[i])
  {
    result := "";
    var i := 0;
    while i < length
      invariant 0 <= i <= (if length < 0 then 0 else length)
      invariant |result| == i
      invariant forall j :: 0 <= j < i ==> result[j] == CharOf(draws[j])
    {
      var ch := Chars[DrawIndex(draws[i])];
      result := result + [ch];
      i := i + 1;
    }
  }

  /** The unreserved characters of section 2.3 of RFC 3986, the alphabet
      section 4.1 of RFC 7636 allows in a code verifier. */
  predicate Unreserved(c: char)
  {
    ('a' <= c <= 'z') || ('A' <= c <= 'Z') || ('0' <= c <= '9') || c == '-' || c == '.' || c == '_' || c == '~'
  }

  /** Every character of the alphabet is unreserved. */
  lemma AlphabetUnreserved(c: char)
    requires c in Chars
    ensures Unreserved(c)
  {
    var i :| 0 <= i < |Chars| && Chars[i] == c;
    if i < 26 {
      assert c == Letters('a')[i];
    } else if i < 52 {
      assert c == Letters('A')[i - 26];
    } else {
      assert c == Digits[i - 52];
      assert forall j :: 0 <= j < |Digits| ==> '0' <= Digits[j] <= '9';
    }
  }

  // ---------------------------------------------------------------------
  // Challenge (createVerifier)
  // ---------------------------------------------------------------------

  /** `replace(a, b)` for single characters. */
  function ReplaceChar(s: string, a: char, b: char): (r: string)
    ensures |r| == |s|
    ensures forall i :: 0 <= i < |s| ==> r[i] == (if s[i] == a then b else s[i])
  {
    seq(|s|, i requires 0 <= i < |s| => if s[i] == a then b else s[i])
  }

  /** `replace(c, "")`: every `c` removed, the rest kept in order. */
  function DeleteChar(s: string, c: char): (r: string)
    ensures c !in r
    ensures forall x :: x != c ==> (x in r <==> x in s)
  {
    if |s| == 0 then ""
    else (if s[0] == c then "" else [s[0]]) + DeleteChar(s[1..], c)
  }

  /** The number of `c` in `s`. */
  function Count(s: string, c: char): nat
  {
    if |s| == 0 then 0 else (if s[0] == c then 1 else 0) + Count(s[1..], c)
  }

  lemma {:induction false} DeleteCharLength(s: string, c: char)
    ensures |DeleteChar(s, c)| == |s| - Count(s, c)
  {
    if |s| > 0 {
      DeleteCharLength(s[1..], c);
    }
  }

  /** The challenge post-processing: Base64 into unpadded base64url
      (section 5 of RFC 4648). */
  function ToBase64Url(b64: string): (r: string)
    ensures '+' !in r && '/' !in r && '=' !in r
    ensures |r| == |b64| - Count(b64, '=')
  {
    var s := ReplaceChar(ReplaceChar(b64, '+', '-'), '/', '_');
    DeleteCharLength(s, '=');
    CountUnchanged(b64, s);
    assert '+' !in s && '/' !in s;
    DeleteChar(s, '=')
  }

  /** The replacements leave every '=' where it is. */
  lemma {:induction false} CountUnchanged(b64: string, s: string)
    requires |s| == |b64|
    requires forall i :: 0 <= i < |s| ==> (s[i] == '=' <==> b64[i] == '=')
    ensures Count(s, '=') == Count(b64, '=')
  {
    if |s| > 0 {
      CountUnchanged(b64[1..], s[1..]);
    }
  }

  /** The characters of the standard Base64 alphabet. */
  predicate Base64Char(c: char)
  {
    ('a' <= c <= 'z') || ('A' <= c <= 'Z') || ('0' <= c <= '9') || c == '+' || c == '/'
  }

  /** Base64 text: alphabet characters and at most two '=' of padding,
      whole quanta of four. */
  predicate PaddedBase64(body: string, pad: nat)
  {
    pad <= 2 && (|body| + pad) % 4 == 0 && forall i :: 0 <= i < |body| ==> Base64Char(body[i])
  }

  function Padding(n: nat): string
  {
    if n == 0 then "" else "=" + Padding(n - 1)
  }

  /** The decoder's view: base64url back to standard Base64, with the
      padding restored from the length. */
  function FromBase64Url(u: string): string
  {
    ReplaceChar(ReplaceChar(u, '-', '+'), '_', '/') + Padding((4 - |u| % 4) % 4)
  }

  lemma {:induction false} DeleteAbsent(s: string, c: char)
    requires c !in s
    ensures DeleteChar(s, c) == s
  {
    if |s| > 0 {
      DeleteAbsent(s[1..], c);
    }
  }

  lemma {:induction false} DeleteAppend(a: string, b: string, c: char)
    ensures DeleteChar(a + b, c) == DeleteChar(a, c) + DeleteChar(b, c)
  {
    if |a| > 0 {
      assert (a + b)[1..] == a[1..] + b;
      DeleteAppend(a[1..], b, c);
    } else {
      assert a + b == b;
    }
  }

  lemma {:induction false} DeletePadding(n: nat)
    ensures DeleteChar(Padding(n), '=') == ""
  {
    if n > 0 {
      DeletePadding(n - 1);
    }
  }

  /** The replacements work character by character. */
  lemma ReplaceAppend(a: string, b: string, x: char, y: char)
    ensures ReplaceChar(a + b, x, y) == ReplaceChar(a, x, y) + ReplaceChar(b, x, y)
  {
    assert ReplaceChar(a + b, x, y) == ReplaceChar(a, x, y) + ReplaceChar(b, x, y);
  }

  /** Padding is left alone by the replacements. */
  lemma ReplacePadding(n: nat, x: char, y: char)
    requires x != '='
    ensures ReplaceChar(Padding(n), x, y) == Padding(n)
  {
    PaddingChars(n);
  }

  /** Base64 text holds no '-' and '_', so swapping back restores it. */
  lemma SwapBack(body: string)
    requires forall i :: 0 <= i < |body| ==> Base64Char(body[i])
    ensures var url := ReplaceChar(ReplaceChar(body, '+', '-'), '/', '_');
            && '=' !in url
            && ReplaceChar(ReplaceChar(url, '-', '+'), '_', '/') == body
  {
    var url := ReplaceChar(ReplaceChar(body, '+', '-'), '/', '_');
    assert forall i :: 0 <= i < |url| ==> url[i] != '=';
  }

  /** Dropping the padding and restoring it from the length gives back
      the Base64 text: the challenge transform loses nothing. */
  lemma Base64UrlRoundTrip(body: string, pad: nat)
    requires PaddedBase64(body, pad)
    ensures FromBase64Url(ToBase64Url(body + Padding(pad))) == body + Padding(pad)
  {
    var url := ReplaceChar(ReplaceChar(body, '+', '-'), '/', '_');
    UrlOfPadded(body, pad);
    SwapBack(body);
    PaddingFromLength(|url|, pad);
  }

  /** The base64url form of padded Base64 is its body with `+` and `/`
      swapped. */
  lemma UrlOfPadded(body: string, pad: nat)
    requires forall i :: 0 <= i < |body| ==> Base64Char(body[i])
    ensures ToBase64Url(body + Padding(pad)) == ReplaceChar(ReplaceChar(body, '+', '-'), '/', '_')
  {
    var s := body + Padding(pad);
    var plus := ReplaceChar(body, '+', '-');
    var url := ReplaceChar(plus, '/', '_');
    assert ReplaceChar(s, '+', '-') == plus + Padding(pad) by {
      ReplaceAppend(body, Padding(pad), '+', '-');
      ReplacePadding(pad, '+', '-');
    }
    assert ReplaceChar(plus + Padding(pad), '/', '_') == url + Padding(pad) by {
      ReplaceAppend(plus, Padding(pad), '/', '_');
      ReplacePadding(pad, '/', '_');
    }
    SwapBack(body);
    assert DeleteChar(url + Padding(pad), '=') == url by {
      DeleteAppend(url, Padding(pad), '=');
      DeleteAbsent(url, '=');
      DeletePadding(pad);
    }
  }

  /** The decoder's padding count recovers the padding that was dropped. */
  lemma PaddingFromLength(n: nat, pad: nat)
    requires pad <= 2 && (n + pad) % 4 == 0
    ensures (4 - n % 4) % 4 == pad
  {
  }

  lemma {:induction false} PaddingChars(n: nat)
    ensures forall i :: 0 <= i < |Padding(n)| ==> Padding(n)[i] == '='
    ensures |Padding(n)| == n
  {
    if n > 0 {
      PaddingChars(n - 1);
    }
  }

  /** A SHA-256 digest is 32 bytes, so its Base64 text is 43 characters
      and one '='; the challenge is those 43 characters. */
  lemma DigestChallengeLength(body: string)
    requires PaddedBase64(body, 1) && |body| == 43
    ensures |ToBase64Url(body + "=")| == 43
  {
    assert Padding(1) == "=";
    CountOf(body, 1);
  }

  lemma CountOf(body: string, pad: nat)
    requires forall i :: 0 <= i < |body| ==> Base64Char(body[i])
    ensures Count(body + Padding(pad), '=') == pad
  {
    CountAbsentAppend(body, Padding(pad));
    CountPadding(pad);
  }

  lemma {:induction false} CountAbsentAppend(a: string, b: string)
    requires forall i :: 0 <= i < |a| ==> a[i] != '='
    ensures Count(a + b, '=') == Count(b, '=')
  {
    if |a| > 0 {
      assert (a + b)[1..] == a[1..] + b;
      CountAbsentAppend(a[1..], b);
    } else {
      assert a + b == b;
    }
  }

  lemma {:induction false} CountPadding(n: nat)
    ensures Count(Padding(n), '=') == n
  {
    if n > 0 {
      CountPadding(n - 1);
    }
  }

  /** The PKCE values `createVerifier` stores. */
  datatype Pkce = Pkce(verifier: string, challenge: string, state: string)

  /** `createVerifier`: an 86-character verifier from the first 86 draws,
      its challenge, and a 10-character state from the next 10 draws.
      `digestBase64` is Base64 of the SHA-256 of the UTF-8 bytes. */
  method CreateVerifier(draws: seq<real>, digestBase64: string -> string) returns (p: Pkce)
    requires ValidDraws(draws) && |draws| >= VerifierLength + StateLength
    ensures |p.verifier| == 86 && 43 <= |p.verifier| <= 128
    ensures forall i :: 0 <= i < |p.verifier| ==> Unreserved(p.verifier[i])
    ensures forall i :: 0 <= i < |p.verifier| ==> p.verifier[i] == CharOf(draws[i])
    ensures p.challenge == ToBase64Url(digestBase64(p.verifier))
    ensures |p.state| == 10
    ensures forall i :: 0 <= i < |p.state| ==> p.state[i] == CharOf(draws[VerifierLength + i])
  {
    var verifier := CreateRandomString(VerifierLength, draws[..VerifierLength]);
    var challenge := ToBase64Url(digestBase64(verifier));
    var state := CreateRandomString(StateLength, draws[VerifierLength..]);
    forall i | 0 <= i < |verifier|
      ensures Unreserved(verifier[i])
    {
      AlphabetUnreserved(verifier[i]);
    }
    p := Pkce(verifier, challenge, state);
  }

  // ---------------------------------------------------------------------
  // Authorize URL and form (prepareAuthUrl, postAuthorize, authorize)
  // ---------------------------------------------------------------------

  /** The client state the authorisation flow reads and writes. The
      configuration file is kept as its lines. */
  datatype Session = Session(
    accessToken: Option<string>,
    refreshToken: Option<string>,
    pkce: Option<Pkce>,
    config: seq<string>)

  /** The parameters of the authorize query, in order. */
  function AuthParameters(p: Pkce, email: Option<string>, encode: string -> string): seq<(string, string)>
  {
    [ ("client_id", ClientId),
      ("code_challenge", encode(p.challenge)),
      ("code_challenge_method", "S256"),
      ("redirect_uri", encode(RedirectUri)),
      ("response_type", "code"),
      ("scope", encode(Scope)),
      ("state", encode(p.state)) ]
    + (if email.Some? then [("login_hint", encode(email.value))] else [])
  }

  /** `key=value` pairs. */
  function Pairs(ps: seq<(string, string)>): (r: seq<string>)
    ensures |r| == |ps|
    ensures forall i :: 0 <= i < |ps| ==> r[i] == ps[i].0 + "=" + ps[i].1
  {
    seq(|ps|, i requires 0 <= i < |ps| => ps[i].0 + "=" + ps[i].1)
  }

  /** One `query += "&name=" + value` step of `prepareAuthUrl`. */
  function AddParam(q: string, name: string, value: string): string
  {
    q + "&" + name + "=" + value
  }

  /** The query `prepareAuthUrl` builds, one step per source line. */
  function AuthQuery(p: Pkce, email: Option<string>, encode: string -> string): string
  {
    var q0 := "client_id" + "=" + ClientId;
    var q1 := AddParam(q0, "code_challenge", encode(p.challenge));
    var q2 := AddParam(q1, "code_challenge_method", "S256");
    var q3 := AddParam(q2, "redirect_uri", encode(RedirectUri));
    var q4 := AddParam(q3, "response_type", "code");
    var q5 := AddParam(q4, "scope", encode(Scope));
    var q6 := AddParam(q5, "state", encode(p.state));
    if email.Some? then AddParam(q6, "login_hint", encode(email.value)) else q6
  }

  /** `prepareAuthUrl`: without a prior `createVerifier` the challenge is
      null and encoding it fails. */
  function PrepareAuthUrl(s: Session, email: Option<string>, encode: string -> string): (r: Result<string>)
    ensures r.Ok? <==> s.pkce.Some?
    ensures r.Err? ==> r.failure == NullPointer
    ensures r.Ok? ==> r.value == AuthorizeUrl + "?" + Join("&", Pairs(AuthParameters(s.pkce.value, email, encode)))
  {
    match s.pkce
    case None => Err(NullPointer)
    case Some(p) =>
      AuthQueryIsJoin(p, email, encode);
      Ok(AuthorizeUrl + "?" + AuthQuery(p, email, encode))
  }

  /** Appending one `key=value` item to a join. */
  lemma AppendItem(items: seq<string>, k: nat, prefix: string)
    requires 1 <= k < |items| && Join("&", items[..k]) == prefix
    ensures Join("&", items[..k + 1]) == prefix + "&" + items[k]
  {
    assert items[..k + 1] == items[..k] + [items[k]];
    JoinSnoc("&", items[..k], items[k]);
  }

  /** The query is the `&`-join of the parameters in their fixed order,
      with `login_hint` last and only when an email is given. */
  lemma AuthQueryIsJoin(p: Pkce, email: Option<string>, encode: string -> string)
    ensures AuthQuery(p, email, encode) == Join("&", Pairs(AuthParameters(p, email, encode)))
  {
    var ps := Pairs(AuthParameters(p, email, encode));
    var base := AuthQuery(p, None, encode);
    assert ps[..7] == Pairs(AuthParameters(p, None, encode));
    BaseQueryIsJoin(p, encode);
    if email.Some? {
      AddPairStep(AuthParameters(p, email, encode), 7, base);
      assert ps[..8] == ps;
    } else {
      assert ps[..7] == ps;
    }
  }

  /** Adding a parameter to a join of the first `k` pairs joins the first
      `k + 1`. */
  lemma AddPairStep(ps: seq<(string, string)>, k: nat, q: string)
    requires 1 <= k < |ps| && Join("&", Pairs(ps)[..k]) == q
    ensures Join("&", Pairs(ps)[..k + 1]) == AddParam(q, ps[k].0, ps[k].1)
  {
    var items := Pairs(ps);
    AppendItem(items, k, q);
    assert items[k] == ps[k].0 + "=" + ps[k].1;
  }

  /** The seven fixed parameters. */
  lemma BaseQueryIsJoin(p: Pkce, encode: string -> string)
    ensures AuthQuery(p, None, encode) == Join("&", Pairs(AuthParameters(p, None, encode)))
  {
    var ps := AuthParameters(p, None, encode);
    var items := Pairs(ps);
    var q0 := "client_id" + "=" + ClientId;
    assert items[..1] == [q0];
    var q1 := AddParam(q0, "code_challenge", encode(p.challenge));
    AddPairStep(ps, 1, q0);
    var q2 := AddParam(q1, "code_challenge_method", "S256");
    AddPairStep(ps, 2, q1);
    var q3 := AddParam(q2, "redirect_uri", encode(RedirectUri));
    AddPairStep(ps, 3, q2);
    var q4 := AddParam(q3, "response_type", "code");
    AddPairStep(ps, 4, q3);
    var q5 := AddParam(q4, "scope", encode(Scope));
    AddPairStep(ps, 5, q4);
    var q6 := AddParam(q5, "state", encode(p.state));
    AddPairStep(ps, 6, q5);
    assert items[..7] == items;
  }

  /** The form body of `postAuthorize`: the identity, then every form
      parameter in iteration order, each name and value encoded. A null
      email fails in the encoder. */
  method AuthorizeForm(email: Option<string>, form: seq<(string, string)>, encode: string -> string)
    returns (r: Result<string>)
    ensures r.Ok? <==> email.Some?
    ensures r.Err? ==> r.failure == NullPointer
    ensures r.Ok? ==> r.value == Join("&", ["identity=" + encode(email.value)] + EncodedPairs(form, encode))
  {
    if email.None? {
      return Err(NullPointer);
    }
    var body := "identity=" + encode(email.value);
    var i := 0;
    while i < |form|
      invariant 0 <= i <= |form|
      invariant body == Join("&", ["identity=" + encode(email.value)] + EncodedPairs(form[..i], encode))
    {
      var first := ["identity=" + encode(email.value)];
      assert EncodedPairs(form[..i + 1], encode) == EncodedPairs(form[..i], encode) + [encode(form[i].0) + "=" + encode(form[i].1)];
      assert first + EncodedPairs(form[..i + 1], encode)
          == (first + EncodedPairs(form[..i], encode)) + [encode(form[i].0) + "=" + encode(form[i].1)];
      JoinSnoc("&", first + EncodedPairs(form[..i], encode), encode(form[i].0) + "=" + encode(form[i].1));
      body := body + "&" + encode(form[i].0) + "=" + encode(form[i].1);
      i := i + 1;
    }
    assert form[..|form|] == form;
    return Ok(body);
  }

  /** Each form parameter as `encode(name)=encode(value)`. */
  function EncodedPairs(form: seq<(string, string)>, encode: string -> string): (r: seq<string>)
    ensures |r| == |form|
    ensures forall i :: 0 <= i < |form| ==> r[i] == encode(form[i].0) + "=" + encode(form[i].1)
  {
    seq(|form|, i requires 0 <= i < |form| => encode(form[i].0) + "=" + encode(form[i].1))
  }

  /** `postAuthorize`: the login form posted to the authorize URL. The
      query is built first, so a missing challenge fails before a null
      email does. */
  method PostAuthorize(s: Session, t: Transport, email: Option<string>, form: seq<(string, string)>,
                       encode: string -> string)
    returns (r: Result<Request>)
    ensures s.pkce.None? || email.None? ==> r == Err(NullPointer)
    ensures r.Ok? <==> s.pkce.Some? && email.Some?
    ensures r.Ok? ==>
              && r.value.verb == POST
              && Ok(r.value.url) == PrepareAuthUrl(s, None, encode)
              && r.value.payload == Some(Join("&", ["identity=" + encode(email.value)] + EncodedPairs(form, encode)))
              && r.value.headers == Enrich(PostBaseHeaders(r.value.payload), None, t)
  {
    if s.pkce.None? {
      return Err(NullPointer);
    }
    var p := s.pkce.value;
    var url := AuthorizeUrl + "?" + AuthQuery(p, None, encode);
    var body := AuthorizeForm(email, form, encode);
    if body.Err? {
      return Err(body.failure);
    }
    return Ok(PostRequest(t, url, Some(body.value), None));
  }

  /** `authorize`: the hidden fields of the login page fetched from the
      authorize URL. */
  function Authorize(s: Session, t: Transport, email: Option<string>, encode: string -> string, page: Exchange)
    : (r: Result<HiddenFields.Fields>)
    ensures s.pkce.None? ==> r == Err(NullPointer)
    ensures s.pkce.Some? && ClassifyGet(page).Err? ==> r == Err(ClassifyGet(page).failure)
    ensures s.pkce.Some? && page.Delivered? ==> r == HiddenFields.ScanFrom(page.text, 0, map[])
  {
    var url :- PrepareAuthUrl(s, email, encode);
    var text :- ClassifyGet(page);
    HiddenFields.ScanFrom(text, 0, map[])
  }

  /** The request `authorize` sends. */
  function AuthorizeRequest(s: Session, t: Transport, email: Option<string>, encode: string -> string): (r: Result<Request>)
    ensures r.Ok? <==> s.pkce.Some?
    ensures r.Ok? ==> r.value.verb == GET && r.value.headers == Enrich(GetBaseHeaders(), None, t)
    ensures r.Ok? ==> r.value.url == AuthorizeUrl + "?" + Join("&", Pairs(AuthParameters(s.pkce.value, email, encode)))
    ensures r.Ok? ==> r.value.payload.None?
  {
    var url :- PrepareAuthUrl(s, email, encode);
    Ok(GetRequest(t, url, None))
  }

  // ---------------------------------------------------------------------
  // Tokens (retrieveTokens, refreshTokens, constructor)
  // ---------------------------------------------------------------------

  /** The fields of the token endpoint's answer the client reads. */
  datatype TokenResponse = TokenResponse(accessToken: Option<string>, refreshToken: Option<string>)

  /** The JSON bodies posted to the token endpoint. */
  datatype TokenGrant =
    | AuthorizationCodeGrant(code: string, codeVerifier: string)
    | RefreshTokenGrant(refreshToken: string)

  /** The answer of `retrieveTokens` and the grant it posted. */
  datatype TokenExchange = TokenExchange(grant: TokenGrant, response: Option<TokenResponse>)

  /** `retrieveTokens`: posts the code with the stored verifier. The
      answer is returned to the caller; the session is not changed. */
  function RetrieveTokens(s: Session, code: string, reply: Result<Option<TokenResponse>>): (r: Result<TokenExchange>)
    ensures s.pkce.None? ==> r == Err(NullPointer)
    ensures s.pkce.Some? && reply.Err? ==> r == Err(reply.failure)
    ensures r.Ok? ==> r.value.grant == AuthorizationCodeGrant(code, s.pkce.value.verifier) && reply == Ok(r.value.response)
  {
    var p :- NotNull(s.pkce);
    var response :- reply;
    Ok(TokenExchange(AuthorizationCodeGrant(code, p.verifier), response))
  }

  /** The session and transport after a refresh. */
  datatype Refreshed = Refreshed(session: Session, transport: Transport)

  /** `refreshTokens`. The `assert` on the refresh token is disabled on the
      JVM by default, so a null one fails on `!!`. A null answer fails on
      its first field access. When both new tokens are present they replace
      the old ones, become the bearer and are written to the configuration;
      otherwise nothing changes. */
  function RefreshTokens(s: Session, t: Transport, reply: Result<Option<TokenResponse>>): (r: Result<Refreshed>)
    ensures s.refreshToken.None? ==> r == Err(NullPointer)
    ensures s.refreshToken.Some? && reply.Err? ==> r == Err(reply.failure)
    ensures s.refreshToken.Some? && reply == Ok(None) ==> r == Err(NullPointer)
    ensures r.Ok? ==> r.value.session.pkce == s.pkce && r.value.transport.cookies == t.cookies
    ensures r.Ok? ==>
              var tr := reply.value.value;
              if tr.accessToken.Some? && tr.refreshToken.Some? then
                && r.value.session.accessToken == tr.accessToken
                && r.value.session.refreshToken == tr.refreshToken
                && r.value.transport.bearer == tr.accessToken
                && r.value.session.config
                   == Configuration.Apply(s.config, Configuration.TokenChanges(tr.accessToken, tr.refreshToken))
              else
                r.value == Refreshed(s, t)
  {
    var refresh :- NotNull(s.refreshToken);
    var answer :- reply;
    var tr :- NotNull(answer);
    if tr.refreshToken.Some? && tr.accessToken.Some? then
      var changes := Configuration.TokenChanges(tr.accessToken, tr.refreshToken);
      Ok(Refreshed(
        s.(accessToken := tr.accessToken, refreshToken := tr.refreshToken,
           config := Configuration.Apply(s.config, changes)),
        SetBearer(t, tr.accessToken)))
    else
      Ok(Refreshed(s, t))
  }

  /** The grant `refreshTokens` posts. */
  function RefreshGrant(s: Session): (r: Result<TokenGrant>)
    ensures r.Ok? <==> s.refreshToken.Some?
    ensures r.Ok? ==> r.value == RefreshTokenGrant(s.refreshToken.value)
  {
    var refresh :- NotNull(s.refreshToken);
    Ok(RefreshTokenGrant(refresh))
  }

  /** After a successful refresh, the configuration file holds the new
      tokens on the lines of its token keys, and every other line is only
      trimmed. */
  lemma RefreshPersistsTokens(s: Session, t: Transport, reply: Result<Option<TokenResponse>>, i: int)
    requires |s.config| > 0 && 0 <= i < |s.config|
    requires var r := RefreshTokens(s, t, reply);
             r.Ok? && r.value.session.accessToken.Some? && r.value.session.accessToken != s.accessToken
    ensures var r := RefreshTokens(s, t, reply);
            var line := Trim(s.config[i]);
            var out := r.value.session.config[i];
            && (Configuration.KeyOf(line) == Some(Configuration.AccessTokenKey) ==>
                  out == Configuration.AccessTokenKey + "=" + r.value.session.accessToken.value)
            && (!Configuration.KeyIn(line, {Configuration.AccessTokenKey, Configuration.RefreshTokenKey}) ==>
                  out == line)
  {
    var tr := reply.value.value;
    var changes := Configuration.TokenChanges(tr.accessToken, tr.refreshToken);
    Configuration.RewriteLineMeaning(s.config[i], changes);
  }

  /** The constructor: both tokens are read (a missing key fails the
      platform null check), then the access token becomes the bearer. The
      exit for a null token is kept as written. */
  function NewSession(props: Configuration.Properties, config: seq<string>, t: Transport): (r: Result<Refreshed>)
    ensures r.Ok? <==> Configuration.AccessTokenKey in props && Configuration.RefreshTokenKey in props
    ensures r.Err? ==> r.failure == NullPointer
    ensures r.Ok? ==>
              && r.value.session == Session(Some(props[Configuration.AccessTokenKey]),
                                            Some(props[Configuration.RefreshTokenKey]), None, config)
              && r.value.transport == SetBearer(t, Some(props[Configuration.AccessTokenKey]))
  {
    var access :- Configuration.ReadRequired(props, Configuration.AccessTokenKey);
    var refresh :- Configuration.ReadRequired(props, Configuration.RefreshTokenKey);
    var accessToken, refreshToken := Some(access), Some(refresh);
    if accessToken.None? || refreshToken.None? then Err(Exit(1))
    else Ok(Refreshed(Session(accessToken, refreshToken, None, config), SetBearer(t, accessToken)))
  }
}

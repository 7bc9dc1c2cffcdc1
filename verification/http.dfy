/** http.go: AddCookies, which stores cookies in an HTTP client's cookie
    jar, and DoRequest, which builds a request, sends it and classifies the
    response. Sending, decompressing and reading are outside the model:
    their outcomes are given as an `Exchange`. */
module Http {
  import opened Wrappers

  newtype Byte = x: int | 0 <= x < 256

  /** The nine HttpMethod constants DoRequest accepts. */
  const Methods: seq<string> := ["GET", "POST", "PUT", "DELETE", "PATCH", "OPTIONS", "HEAD", "CONNECT", "TRACE"]

  /** The Accept-Encoding DoRequest announces. */
  const AcceptEncoding: string := "gzip, deflate, br, zstd"

  // ---------------------------------------------------------------------
  // AddCookies
  // ---------------------------------------------------------------------

  datatype Cookie = Cookie(name: string, value: string)

  /** A cookie jar, as the record of the SetCookies calls it received:
      the URL each call was for and the cookies it carried. */
  datatype Jar = Jar(calls: seq<(string, seq<Cookie>)>)

  /** http.Client, as far as AddCookies sees it: its jar, if it has one. */
  datatype Client = Client(jar: Option<Jar>)

  datatype CookieError = NilClient | BadUrl(msg: string)

  /** AddCookies. A nil client is an error; an empty cookie list succeeds
      without looking at the URL; otherwise the URL must parse (`urlError`
      is url.Parse's outcome), a jar is created if the client has none, and
      the cookies are handed to the jar. Returns the client afterwards. */
  function AddCookies(client: Option<Client>, targetUrl: string, cookies: seq<Cookie>, urlError: Option<string>): (r: Result<Client, CookieError>)
    ensures client.None? ==> r == Err(NilClient)
    ensures client.Some? && cookies == [] ==> r == Ok(client.value)
    ensures client.Some? && cookies != [] && urlError.Some? ==> r == Err(BadUrl(urlError.value))
    ensures r.Ok? <==> client.Some? && (cookies == [] || urlError.None?)
    ensures r.Ok? && cookies != [] ==>
      r.value.jar.Some? &&
      r.value.jar.value.calls == JarCalls(client.value) + [(targetUrl, cookies)]
  {
    if client.None? then Err(NilClient)
    else if |cookies| == 0 then Ok(client.value)
    else if urlError.Some? then Err(BadUrl(urlError.value))
    else
      var jar := if client.value.jar.Some? then client.value.jar.value else Jar([]);
      Ok(Client(Some(Jar(jar.calls + [(targetUrl, cookies)]))))
  }

  /** The calls a client's jar has received; none for a client without one. */
  function JarCalls(client: Client): seq<(string, seq<Cookie>)>
  {
    if client.jar.Some? then client.jar.value.calls else []
  }

  /** A jar is created only when the client has none: an existing jar is
      kept, with the new call recorded after the ones it already had. */
  lemma AddCookiesKeepsJar(jar: Jar, targetUrl: string, cookies: seq<Cookie>)
    requires cookies != []
    ensures AddCookies(Some(Client(Some(jar))), targetUrl, cookies, None)
      == Ok(Client(Some(Jar(jar.calls + [(targetUrl, cookies)]))))
  {
  }

  /** Two successful calls record both cookie lists, in call order. */
  lemma {:induction false} AddCookiesTwice(client: Client, url1: string, c1: seq<Cookie>, url2: string, c2: seq<Cookie>)
    requires c1 != [] && c2 != []
    ensures AddCookies(Some(client), url1, c1, None).Ok?
    ensures var once := AddCookies(Some(client), url1, c1, None).value;
      var twice := AddCookies(Some(once), url2, c2, None);
      twice.Ok? && JarCalls(twice.value) == JarCalls(client) + [(url1, c1), (url2, c2)]
  {
    var once := AddCookies(Some(client), url1, c1, None).value;
    assert JarCalls(once) == JarCalls(client) + [(url1, c1)];
  }

  // ---------------------------------------------------------------------
  // Headers
  // ---------------------------------------------------------------------

  /** A request header: one value per canonical key, since DoRequest only
      ever uses Header.Set. */
  type Header = map<string, string>

  /** A byte allowed in a header field name (an RFC 7230 token character). */
  predicate IsTokenChar(c: char) {
    || ('a' <= c <= 'z') || ('A' <= c <= 'Z') || ('0' <= c <= '9')
    || c in "!#$%&'*+-.^_`|~"
  }

  predicate AllTokenChars(s: string) {
    forall i :: 0 <= i < |s| ==> IsTokenChar(s[i])
  }

  /** textproto.CanonicalMIMEHeaderKey: a key with a character that is not
      a token character is left alone; otherwise the first letter and every
      letter after a `-` are upper-cased and the other letters lower-cased. */
  function CanonicalKey(key: string): (k: string)
    ensures |k| == |key|
  {
    if AllTokenChars(key) then Canonicalize(key, true) else key
  }

  function Canonicalize(s: string, upper: bool): (r: string)
    ensures |r| == |s|
    ensures forall i :: 0 <= i < |s| ==> (r[i] == '-' <==> s[i] == '-')
  {
    if |s| == 0 then ""
    else
      var c := s[0];
      var d := if upper && 'a' <= c <= 'z' then (c as int - 32) as char
               else if !upper && 'A' <= c <= 'Z' then (c as int + 32) as char
               else c;
      [d] + Canonicalize(s[1..], d == '-')
  }

  lemma {:induction false} CanonicalizeTokens(s: string, upper: bool)
    requires AllTokenChars(s)
    ensures AllTokenChars(Canonicalize(s, upper))
    decreases |s|
  {
    if |s| > 0 {
      CanonicalizeTokens(s[1..], s[0] == '-');
    }
  }

  lemma {:induction false} CanonicalizeTwice(s: string, upper: bool)
    ensures Canonicalize(Canonicalize(s, upper), upper) == Canonicalize(s, upper)
    decreases |s|
  {
    if |s| > 0 {
      var r := Canonicalize(s, upper);
      assert r[1..] == Canonicalize(s[1..], r[0] == '-');
      CanonicalizeTwice(s[1..], r[0] == '-');
    }
  }

  /** Canonicalizing a canonical key changes nothing. */
  lemma CanonicalKeyIdempotent(key: string)
    ensures CanonicalKey(CanonicalKey(key)) == CanonicalKey(key)
  {
    if AllTokenChars(key) {
      CanonicalizeTokens(key, true);
      CanonicalizeTwice(key, true);
    }
  }

  /** Header.Get: the value under the canonical form of `key`, or "". */
  function Get(h: Header, key: string): string
  {
    var k := CanonicalKey(key);
    if k in h then h[k] else ""
  }

  /** The value the last pair whose key canonicalizes to `k` sets. */
  function LastSet(pairs: seq<(string, string)>, k: string): (v: Option<string>)
    ensures v.Some? <==> exists i :: 0 <= i < |pairs| && CanonicalKey(pairs[i].0) == k
  {
    if |pairs| == 0 then None
    else if CanonicalKey(pairs[|pairs| - 1].0) == k then Some(pairs[|pairs| - 1].1)
    else
      var v := LastSet(pairs[..|pairs| - 1], k);
      assert forall i :: 0 <= i < |pairs| - 1 ==> pairs[..|pairs| - 1][i] == pairs[i];
      v
  }

  /** Header.Set for each pair, in order: later pairs win, keys are
      canonicalized, and keys no pair names keep their value. */
  function SetAll(h: Header, pairs: seq<(string, string)>): (r: Header)
    ensures forall k :: k in r <==> k in h || LastSet(pairs, k).Some?
    ensures forall k :: k in r ==> r[k] == if LastSet(pairs, k).Some? then LastSet(pairs, k).value else h[k]
  {
    if |pairs| == 0 then h
    else
      var (key, value) := pairs[|pairs| - 1];
      SetAll(h, pairs[..|pairs| - 1])[CanonicalKey(key) := value]
  }

  /** The Cookie header value for `cookies`: `name=value` pairs joined by
      `; `. Name and value sanitization is not modelled. */
  function CookieString(cookies: seq<Cookie>): (s: string)
    requires |cookies| > 0
    ensures |s| > 0
  {
    var last := cookies[|cookies| - 1];
    var pair := last.name + "=" + last.value;
    if |cookies| == 1 then pair else CookieString(cookies[..|cookies| - 1]) + "; " + pair
  }

  /** Request.AddCookie: appends `name=value` to a non-empty Cookie header
      with `; `, or sets it. */
  function AddCookie(h: Header, c: Cookie): Header
  {
    var pair := c.name + "=" + c.value;
    if "Cookie" in h && h["Cookie"] != "" then h["Cookie" := h["Cookie"] + "; " + pair]
    else h["Cookie" := pair]
  }

  function AddAllCookies(h: Header, cookies: seq<Cookie>): (r: Header)
    ensures cookies == [] ==> r == h
    ensures cookies != [] ==>
      "Cookie" in r &&
      r["Cookie"] == (if "Cookie" in h && h["Cookie"] != "" then h["Cookie"] + "; " else "") + CookieString(cookies)
    ensures forall k :: k != "Cookie" ==> (k in r <==> k in h)
    ensures forall k :: k != "Cookie" && k in r ==> r[k] == h[k]
  {
    if |cookies| == 0 then h
    else AddCookie(AddAllCookies(h, cookies[..|cookies| - 1]), cookies[|cookies| - 1])
  }

  /** When a body is present and no non-empty Content-Type is set, the
      Content-Type becomes application/json. */
  function DefaultContentType(h: Header, hasBody: bool): Header
  {
    if hasBody && Get(h, "Content-Type") == "" then h["Content-Type" := "application/json"] else h
  }

  /** The header DoRequest sends: Accept-Encoding first, then the caller's
      headers in map-iteration order, then the caller's cookies, then the
      Content-Type default. */
  function AssembleHeader(headers: seq<(string, string)>, cookies: seq<Cookie>, hasBody: bool): Header
  {
    var h := SetAll(map["Accept-Encoding" := AcceptEncoding], headers);
    DefaultContentType(AddAllCookies(h, cookies), hasBody)
  }

  /** A key already in canonical form: a letter at the start or after a
      `-` is not lower-case, and any other letter is not upper-case. */
  predicate CanonicalFrom(s: string, upper: bool)
    decreases |s|
  {
    || |s| == 0
    || (&& (if upper then !('a' <= s[0] <= 'z') else !('A' <= s[0] <= 'Z'))
        && CanonicalFrom(s[1..], s[0] == '-'))
  }

  lemma {:induction false} CanonicalizeFixed(s: string, upper: bool)
    requires CanonicalFrom(s, upper)
    ensures Canonicalize(s, upper) == s
    decreases |s|
  {
    if |s| > 0 {
      CanonicalizeFixed(s[1..], s[0] == '-');
      assert s == [s[0]] + s[1..];
    }
  }

  /** Content-Type, the key DoRequest defaults, is already canonical. */
  lemma CanonicalContentType()
    ensures CanonicalKey("Content-Type") == "Content-Type"
  {
    ContentTypeIsCanonical();
    ContentTypeIsToken();
    CanonicalFixedKey("Content-Type");
  }

  // Literal keys are checked a few characters at a time, which keeps each
  // unfolding of CanonicalFrom small.

  lemma TypeIsCanonical()
    ensures CanonicalFrom("-Type", false)
  {
  }

  lemma ContentTypeIsCanonical()
    ensures CanonicalFrom("Content-Type", true)
  {
    TypeIsCanonical();
  }

  lemma ContentTypeIsToken()
    ensures AllTokenChars("Content-Type")
  {
  }

  lemma CanonicalFixedKey(key: string)
    requires AllTokenChars(key) && CanonicalFrom(key, true)
    ensures CanonicalKey(key) == key
  {
    CanonicalizeFixed(key, true);
  }

  /** The caller's Accept-Encoding, if any, overrides the default. */
  lemma AcceptEncodingHeader(headers: seq<(string, string)>, cookies: seq<Cookie>, hasBody: bool)
    ensures var h := AssembleHeader(headers, cookies, hasBody);
      var given := LastSet(headers, "Accept-Encoding");
      "Accept-Encoding" in h && h["Accept-Encoding"] == (if given.Some? then given.value else AcceptEncoding)
  {
    AcceptEncodingAfterSet(headers);
    AcceptEncodingKept(SetAll(map["Accept-Encoding" := AcceptEncoding], headers), cookies, hasBody);
  }

  lemma AcceptEncodingAfterSet(headers: seq<(string, string)>)
    ensures var h := SetAll(map["Accept-Encoding" := AcceptEncoding], headers);
      var given := LastSet(headers, "Accept-Encoding");
      "Accept-Encoding" in h && h["Accept-Encoding"] == (if given.Some? then given.value else AcceptEncoding)
  {
  }

  /** Cookies and the Content-Type default leave Accept-Encoding alone. */
  lemma AcceptEncodingKept(h: Header, cookies: seq<Cookie>, hasBody: bool)
    requires "Accept-Encoding" in h
    ensures var r := DefaultContentType(AddAllCookies(h, cookies), hasBody);
      "Accept-Encoding" in r && r["Accept-Encoding"] == h["Accept-Encoding"]
  {
    AcceptEncodingIsNotSetLater();
  }

  lemma AcceptEncodingIsNotSetLater()
    ensures "Accept-Encoding" != "Cookie" && "Accept-Encoding" != "Content-Type"
  {
    assert "Accept-Encoding"[0] != "Cookie"[0];
  }

  /** Content-Type: the caller's, unless a body is present and the caller
      gave none or an empty one, in which case application/json. */
  lemma ContentTypeHeader(headers: seq<(string, string)>, cookies: seq<Cookie>, hasBody: bool)
    ensures var h := AssembleHeader(headers, cookies, hasBody);
      var given := LastSet(headers, "Content-Type");
      && (hasBody ==> "Content-Type" in h && h["Content-Type"] == (if given.Some? && given.value != "" then given.value else "application/json"))
      && (!hasBody ==> ("Content-Type" in h <==> given.Some?) && (given.Some? ==> h["Content-Type"] == given.value))
  {
    CanonicalContentType();
    var h0 := SetAll(map["Accept-Encoding" := AcceptEncoding], headers);
    var h1 := AddAllCookies(h0, cookies);
    assert "Content-Type" in h1 <==> "Content-Type" in h0;
    assert "Content-Type" in h0 <==> LastSet(headers, "Content-Type").Some?;
    assert "Content-Type" in h1 ==> h1["Content-Type"] == h0["Content-Type"];
  }

  /** Cookie: the caller's cookies are appended to a non-empty Cookie
      header the caller set, separated by `; `. */
  lemma CookieHeader(headers: seq<(string, string)>, cookies: seq<Cookie>, hasBody: bool)
    ensures var h := AssembleHeader(headers, cookies, hasBody);
      var given := LastSet(headers, "Cookie");
      && (cookies != [] ==> ("Cookie" in h &&
           h["Cookie"] == (if given.Some? && given.value != "" then given.value + "; " else "") + CookieString(cookies)))
      && (cookies == [] ==> ("Cookie" in h <==> given.Some?) && (given.Some? ==> h["Cookie"] == given.value))
  {
    var h0 := SetAll(map["Accept-Encoding" := AcceptEncoding], headers);
    assert "Cookie" in h0 <==> LastSet(headers, "Cookie").Some?;
    assert "Cookie" in h0 ==> h0["Cookie"] == LastSet(headers, "Cookie").value;
  }

  /** Every other key holds exactly what the caller's last header with that
      canonical key set. */
  lemma OtherHeaders(headers: seq<(string, string)>, cookies: seq<Cookie>, hasBody: bool, k: string)
    requires k != "Accept-Encoding" && k != "Content-Type" && k != "Cookie"
    ensures var h := AssembleHeader(headers, cookies, hasBody);
      (k in h <==> LastSet(headers, k).Some?) && (k in h ==> h[k] == LastSet(headers, k).value)
  {
    var h0 := SetAll(map["Accept-Encoding" := AcceptEncoding], headers);
    var h1 := AddAllCookies(h0, cookies);
    assert k in h1 <==> k in h0;
    assert k in h0 <==> LastSet(headers, k).Some?;
  }

  // ---------------------------------------------------------------------
  // DoRequest
  // ---------------------------------------------------------------------

  /** The request handed to client.Do. */
  datatype Request = Request(verb: string, url: string, header: Header, body: Option<seq<Byte>>)

  /** A response as DoRequest sees it: its status, its Content-Encoding,
      the error creating the decompressor for it (if any) and the outcome
      of reading the (decompressed) body. */
  datatype Response = Response(
    status: int,
    contentEncoding: string,
    decoderError: Option<string>,
    readResult: Result<seq<Byte>, string>)

  /** The outcomes of the I/O steps of DoRequest. */
  datatype Exchange = Exchange(
    requestError: Option<string>,       // http.NewRequestWithContext's error
    sent: Result<Response, string>,     // client.Do
    deadlineExceeded: bool)             // whether the request context's deadline had passed

  datatype HttpError =
    | InvalidMethod(verb: string)
    | RequestFailed(msg: string)
    | TimedOut(msg: string)
    | SendFailed(msg: string)
    | DecoderFailed(encoding: string, msg: string)
    | StatusFailed(status: int)
    | ReadFailed(msg: string)

  /** DoRequest's three results: the body, the status code and the error. */
  datatype Reply = Reply(body: Option<seq<Byte>>, status: int, error: Option<HttpError>)

  predicate IsSuccess(status: int) {
    200 <= status < 300
  }

  /** The encodings whose decompressor can fail when it is created. */
  predicate DecoderCanFail(encoding: string) {
    encoding == "gzip" || encoding == "deflate" || encoding == "zstd"
  }

  /** How a response that arrived is classified: a decompressor that
      cannot be created is an internal error even for a failure status; a
      status outside [200, 300) is returned with no body; a read error is
      an internal error. */
  function Classify(resp: Response): (reply: Reply)
    ensures reply.error.None? <==> reply.body.Some?
    ensures reply.error.None? <==>
      !(DecoderCanFail(resp.contentEncoding) && resp.decoderError.Some?) && IsSuccess(resp.status) && resp.readResult.Ok?
    ensures reply.error.None? ==> reply == Reply(Some(resp.readResult.value), resp.status, None)
    ensures !(DecoderCanFail(resp.contentEncoding) && resp.decoderError.Some?) && !IsSuccess(resp.status) ==>
      reply == Reply(None, resp.status, Some(StatusFailed(resp.status)))
    ensures reply.error.Some? && !reply.error.value.StatusFailed? ==> reply.status == 500
  {
    if DecoderCanFail(resp.contentEncoding) && resp.decoderError.Some? then
      Reply(None, 500, Some(DecoderFailed(resp.contentEncoding, resp.decoderError.value)))
    else if !IsSuccess(resp.status) then
      Reply(None, resp.status, Some(StatusFailed(resp.status)))
    else if resp.readResult.Err? then
      Reply(None, 500, Some(ReadFailed(resp.readResult.error)))
    else
      Reply(Some(resp.readResult.value), resp.status, None)
  }

  /** DoRequest, for request method `verb`. `headers` and `cookies` are the caller's maps in the order
      the range loops visit them; a present body, even an empty one, counts
      as a body. Returns the request sent, if one was built, and the reply. */
  function DoRequest(
    verb: string, url: string, headers: seq<(string, string)>, cookies: seq<(string, string)>,
    body: Option<seq<Byte>>, exchange: Exchange): (r: (Option<Request>, Reply))
    ensures verb !in Methods ==> r == (None, Reply(None, 400, Some(InvalidMethod(verb))))
    ensures verb in Methods && exchange.requestError.Some? ==>
      r == (None, Reply(None, 500, Some(RequestFailed(exchange.requestError.value))))
    ensures r.0.Some? <==> verb in Methods && exchange.requestError.None?
    ensures r.0.Some? ==> r.0.value == Request(verb, url, AssembleHeader(headers, CookiesOf(cookies), body.Some?), body)
    ensures r.0.Some? && exchange.sent.Err? ==>
      r.1.body.None? && r.1.status == (if exchange.deadlineExceeded then 504 else 503)
    ensures r.0.Some? && exchange.sent.Ok? ==> r.1 == Classify(exchange.sent.value)
    ensures r.1.error.None? <==> r.1.body.Some?
    ensures r.1.error.None? ==> IsSuccess(r.1.status)
  {
    if verb !in Methods then (None, Reply(None, 400, Some(InvalidMethod(verb))))
    else if exchange.requestError.Some? then (None, Reply(None, 500, Some(RequestFailed(exchange.requestError.value))))
    else
      var request := Request(verb, url, AssembleHeader(headers, CookiesOf(cookies), body.Some?), body);
      match exchange.sent
      case Err(msg) =>
        if exchange.deadlineExceeded then (Some(request), Reply(None, 504, Some(TimedOut(msg))))
        else (Some(request), Reply(None, 503, Some(SendFailed(msg))))
      case Ok(resp) => (Some(request), Classify(resp))
  }

  function CookiesOf(pairs: seq<(string, string)>): (cookies: seq<Cookie>)
    ensures |cookies| == |pairs|
    ensures forall i :: 0 <= i < |pairs| ==> cookies[i] == Cookie(pairs[i].0, pairs[i].1)
  {
    seq(|pairs|, i requires 0 <= i < |pairs| => Cookie(pairs[i].0, pairs[i].1))
  }
}

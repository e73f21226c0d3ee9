/** The earliest response class, `KHttpGenericResponse` of
    `me.kyleclemens.khttp.responses`.  A redirect reopens the connection at
    the resolved `Location` with the same initializers: there is no history
    and no response object per hop.  The one response object caches the
    final connection, its stream and its content, and collects the cookies
    of every connection it opens in its jar.  Its headers map each field to
    its last value, and are looked up with exact case. */
module EarliestResponses {
  import opened Wrappers
  import opened Text
  import opened OrderedMaps
  import opened CookieJars
  import opened Platforms
  import opened Redirects
  import LegacyRequests

  /** What the response reads from its request: the method, the URL, the
      headers, the text the body initializer writes, the cookies, the
      timeout in seconds as a Kotlin `Int`, and whether redirects are
      followed. */
  datatype EarliestRequest = EarliestRequest(
    httpMethod: string,
    url: string,
    headers: Entries<string, string>,
    body: Option<string>,
    cookies: Option<Entries<string, string>>,
    timeout: LegacyRequests.Int32,
    allowRedirects: bool)

  /** A connection once made: the URL it was opened on and its exchange. */
  datatype Landing = Landing(url: string, exchange: Exchange)

  /* ---------------------------------------------------------------------
     Headers, decoder and charset
     --------------------------------------------------------------------- */

  /** `it.value.last()`: fails on a field without values. */
  function LastOf(field: (Option<string>, seq<string>)): Result<(Option<string>, string)>
  {
    if |field.1| == 0 then Err(NoSuchElement) else Ok((field.0, field.1[|field.1| - 1]))
  }

  /** `headers`: `headerFields.mapValues { it.value.last() }`.  Every field,
      the `null` key of the status line included, keeps its name and its
      place and maps to its last value; a field without values fails. */
  function LastValues(fields: Fields): (r: Result<Entries<Option<string>, string>>)
    ensures r.Ok? <==> forall i :: 0 <= i < |fields| ==> |fields[i].1| > 0
    ensures r.Ok? ==> (|r.value| == |fields| &&
      forall i :: 0 <= i < |fields| ==> r.value[i] == (fields[i].0, fields[i].1[|fields[i].1| - 1]))
    ensures r.Err? ==> r.error == NoSuchElement
  {
    Traverse(fields, LastOf)
  }

  /** A field is found under its exact name, and gives its last value. */
  lemma HeaderAt(fields: Fields, i: nat)
    requires DistinctKeys(fields) && i < |fields| && LastValues(fields).Ok?
    ensures Get(LastValues(fields).value, fields[i].0) == Some(fields[i].1[|fields[i].1| - 1])
  {
    var h := LastValues(fields).value;
    assert h[i].0 == fields[i].0;
    assert fields[i].0 in KeySet(h);
    var v := Get(h, fields[i].0).value;
    var j :| 0 <= j < |h| && h[j] == (fields[i].0, v);
    assert fields[j].0 == fields[i].0;
  }

  /** A name that no field carries exactly is not found, whatever fields
      differ from it in case only. */
  lemma HeaderAbsent(fields: Fields, name: Option<string>)
    requires LastValues(fields).Ok?
    requires forall i :: 0 <= i < |fields| ==> fields[i].0 != name
    ensures Get(LastValues(fields).value, name).None?
  {
    var h := LastValues(fields).value;
    assert forall j :: 0 <= j < |h| ==> h[j].0 == fields[j].0;
  }

  /** The decoder a `Content-Encoding` value selects, in any case. */
  function DecoderNamed(encoding: Option<string>): Decoder
  {
    match encoding
    case None => Identity
    case Some(v) =>
      if ToLower(v) == "gzip" then Gzip
      else if ToLower(v) == "deflate" then Deflate
      else Identity
  }

  /** `realInputStream`: the decoder chosen by the exact `Content-Encoding`
      header. */
  function EarliestDecoder(fields: Fields): Result<Decoder>
  {
    var h :- LastValues(fields);
    Ok(DecoderNamed(Get(h, Some(ContentEncodingField))))
  }

  /** The bytes of a connection as the response reads them. */
  function Stream(p: Platform, l: Landing): Result<seq<byte>>
  {
    var d :- EarliestDecoder(l.exchange.fields);
    Ok(p.inflate(d, l.exchange.body))
  }

  /** The charset of an answer when none was set: UTF-8 without an exact
      `Content-Type` header, else the `charset` parameter upper-cased, or
      UTF-8 without one, as `Charset.forName` knows it. */
  function EarliestCharset(p: Platform, fields: Fields): Result<Charset>
  {
    var h :- LastValues(fields);
    match Get(h, Some(ContentTypeField))
    case None => Ok(Utf8)
    case Some(ct) =>
      var name := if CharsetParam(ct).Some? then ToUpper(CharsetParam(ct).value) else Utf8.name;
      match p.charset(name)
      case None => Err(UnsupportedCharset(name))
      case Some(c) => Ok(c)
  }

  /** A `Content-Type` header sent in another case is not seen: the answer
      reads as UTF-8, whatever charset it names. */
  lemma ContentTypeExactCase(p: Platform, fields: Fields)
    requires LastValues(fields).Ok?
    requires forall i :: 0 <= i < |fields| ==> fields[i].0 != Some(ContentTypeField)
    ensures EarliestCharset(p, fields) == Ok(Utf8)
  {
    HeaderAbsent(fields, Some(ContentTypeField));
  }

  /* ---------------------------------------------------------------------
     Connections and redirects
     --------------------------------------------------------------------- */

  /** The `Cookie` header of the cookie initializer: none without request
      cookies, else the jar built from the request cookies with the
      response's jar put over them. */
  function EarliestCookieHeader(req: EarliestRequest, jar: Entries<string, string>): Result<Option<string>>
  {
    match req.cookies
    case None => Ok(None)
    case Some(cookies) =>
      var text :- MapHeader(PutAll(cookies, jar));
      Ok(Some(text))
  }

  /** What the initializers make of a connection to `url`: the method, the
      headers, the cookies, both timeouts as `timeout * 1000` in `Int`
      arithmetic, no redirects, the body. */
  function EarliestWire(req: EarliestRequest, url: string, jar: Entries<string, string>): Result<WireRequest>
  {
    var cookie :- EarliestCookieHeader(req, jar);
    Ok(WireRequest(req.httpMethod, url, Properties(req.headers, cookie),
                   LegacyRequests.Wrap32(req.timeout as int * 1000) as int, false, req.body))
  }

  /** A `Cookie` header goes out exactly when the request has cookies; the
      other headers go out as the request has them, and the timeout is the
      seconds in milliseconds as long as they fit an `Int`. */
  lemma EarliestWireSpec(req: EarliestRequest, url: string, jar: Entries<string, string>)
    requires EarliestWire(req, url, jar).Ok?
    ensures var w := EarliestWire(req, url, jar).value;
      w.url == url && w.httpMethod == req.httpMethod && !w.followRedirects && w.body == req.body &&
      (Get(w.properties, CookieField).Some? <==> req.cookies.Some? || Get(req.headers, CookieField).Some?) &&
      (req.cookies.Some? ==> Get(w.properties, CookieField) == Some(MapHeader(PutAll(req.cookies.value, jar)).value)) &&
      (forall k :: k != CookieField ==> Get(w.properties, k) == Get(req.headers, k)) &&
      (-2147483 <= req.timeout <= 2147483 ==> w.timeoutMillis == req.timeout as int * 1000)
  {
    if req.cookies.Some? {
      PutGet(req.headers, CookieField, MapHeader(PutAll(req.cookies.value, jar)).value);
    }
    LegacyRequests.TimeoutWraps(req.timeout);
  }

  /** One connection: the initializers, the exchange, and the jar after the
      end initializer has put the answer's cookies into it. */
  function EarliestVisit(p: Platform, req: EarliestRequest, url: string, jar: Entries<string, string>)
    : Result<(Exchange, Entries<string, string>)>
  {
    var wire :- EarliestWire(req, url, jar);
    var ex := p.transport(wire);
    var received :- SetCookieJar(ex.fields);
    Ok((ex, PutAll(jar, AsMap(received))))
  }

  /** The decision, taken on the response's own request. */
  predicate Redirected(req: EarliestRequest, ex: Exchange)
  {
    req.allowRedirects && 301 <= ex.status <= 303
  }

  /** `openRedirectingConnection` from `url`: the final connection or the
      exception, and the jar as the connections left it, which keeps the
      cookies of the hops made before a failure.  `budget` bounds the
      redirects: the library has none. */
  function Redirecting(p: Platform, req: EarliestRequest, url: string, jar: Entries<string, string>, budget: nat)
    : (Result<Landing>, Entries<string, string>)
    decreases budget, 1
  {
    match EarliestVisit(p, req, url, jar)
    case Err(e) => (Err(e), jar)
    case Ok((ex, after)) => Answered(p, req, url, ex, after, budget)
  }

  /** What follows a visit of `url` that answered `ex` and left the jar
      `after`: keep it, give up, or go on to the resolved `Location`. */
  function Answered(p: Platform, req: EarliestRequest, url: string, ex: Exchange,
                    after: Entries<string, string>, budget: nat)
    : (Result<Landing>, Entries<string, string>)
    decreases budget, 0
  {
    if !Redirected(req, ex) then (Ok(Landing(url, ex)), after)
    else if budget == 0 then (Err(TooManyRedirects), after)
    else
      match Target(p, url, ex)
      case Err(e) => (Err(e), after)
      case Ok(target) => Redirecting(p, req, target, after, budget - 1)
  }

  /** `toURI().resolve(getHeaderField("Location"))`: fails without a
      `Location` header or when it does not resolve. */
  function Target(p: Platform, url: string, ex: Exchange): Result<string>
  {
    match LastHeader(ex.fields, LocationField)
    case None => Err(NullPointer)
    case Some(location) =>
      match p.resolve(url, location)
      case None => Err(UnresolvableLocation)
      case Some(target) => Ok(target)
  }

  /** The `connection` getter's first use: `URL(request.url)`, then the
      redirecting connection from it. */
  function Opened(p: Platform, req: EarliestRequest, jar: Entries<string, string>, budget: nat)
    : (Result<Landing>, Entries<string, string>)
  {
    if p.url(req.url).None? then (Err(MalformedUrl), jar) else Redirecting(p, req, req.url, jar, budget)
  }

  /** The connection the response keeps is one that was not redirected,
      reached by a visit that succeeded. */
  lemma {:induction false} RedirectingLands(p: Platform, req: EarliestRequest, url: string,
                                            jar: Entries<string, string>, budget: nat)
    requires Redirecting(p, req, url, jar, budget).0.Ok?
    ensures var l := Redirecting(p, req, url, jar, budget).0.value;
      !Redirected(req, l.exchange) &&
      exists j :: EarliestVisit(p, req, l.url, j) == Ok((l.exchange, Redirecting(p, req, url, jar, budget).1))
    decreases budget, 1
  {
    var v := EarliestVisit(p, req, url, jar).value;
    AnsweredLands(p, req, url, jar, v.0, v.1, budget);
  }

  lemma {:induction false} AnsweredLands(p: Platform, req: EarliestRequest, url: string, jar: Entries<string, string>,
                                         ex: Exchange, after: Entries<string, string>, budget: nat)
    requires EarliestVisit(p, req, url, jar) == Ok((ex, after))
    requires Answered(p, req, url, ex, after, budget).0.Ok?
    ensures var l := Answered(p, req, url, ex, after, budget).0.value;
      !Redirected(req, l.exchange) &&
      exists j :: EarliestVisit(p, req, l.url, j) == Ok((l.exchange, Answered(p, req, url, ex, after, budget).1))
    decreases budget, 0
  {
    if Redirected(req, ex) {
      RedirectingLands(p, req, Target(p, url, ex).value, after, budget - 1);
    }
  }

  /** Without redirects the response keeps its first connection, whatever
      its status. */
  lemma NoRedirectsOneVisit(p: Platform, req: EarliestRequest, url: string, jar: Entries<string, string>, budget: nat)
    requires !req.allowRedirects
    ensures Redirecting(p, req, url, jar, budget) ==
      match EarliestVisit(p, req, url, jar)
      case Err(e) => (Err(e), jar)
      case Ok(v) => (Ok(Landing(url, v.0)), v.1)
  {
  }

  /** The jar only grows: a cookie name once in it stays, on success and on
      failure alike. */
  lemma {:induction false} JarGrows(p: Platform, req: EarliestRequest, url: string,
                                    jar: Entries<string, string>, budget: nat)
    ensures KeySet(jar) <= KeySet(Redirecting(p, req, url, jar, budget).1)
    decreases budget, 1
  {
    var visit := EarliestVisit(p, req, url, jar);
    if visit.Ok? {
      VisitJar(p, req, url, jar);
      AnsweredJar(p, req, url, visit.value.0, visit.value.1, budget);
    }
  }

  lemma {:induction false} AnsweredJar(p: Platform, req: EarliestRequest, url: string, ex: Exchange,
                                       after: Entries<string, string>, budget: nat)
    ensures KeySet(after) <= KeySet(Answered(p, req, url, ex, after, budget).1)
    decreases budget, 0
  {
    if Redirected(req, ex) && budget > 0 && Target(p, url, ex).Ok? {
      JarGrows(p, req, Target(p, url, ex).value, after, budget - 1);
    }
  }

  /** One visit keeps the names in the jar. */
  lemma VisitJar(p: Platform, req: EarliestRequest, url: string, jar: Entries<string, string>)
    requires EarliestVisit(p, req, url, jar).Ok?
    ensures KeySet(jar) <= KeySet(EarliestVisit(p, req, url, jar).value.1)
  {
    var ex := p.transport(EarliestWire(req, url, jar).value);
    PutAllKeys(jar, AsMap(SetCookieJar(ex.fields).value));
  }

  /* ---------------------------------------------------------------------
     The response object
     --------------------------------------------------------------------- */

  class EarliestResponse {
    const platform: Platform
    const request: EarliestRequest
    /** How many redirects may be followed. */
    const budget: nat
    /** `_connection`: the final connection once made. */
    var connection: Option<Landing>
    /** `_raw`: the bytes the decoding stream delivers. */
    var raw: Option<seq<byte>>
    /** `_contents`. */
    var contents: Option<seq<byte>>
    /** `_encoding`: the charset set by the caller, if any. */
    var encoding: Option<Charset>
    /** `_cookies`: the jar, as a name-to-value map. */
    var cookies: Entries<string, string>

    constructor(platform: Platform, request: EarliestRequest, budget: nat)
      ensures this.platform == platform && this.request == request && this.budget == budget
      ensures connection.None? && raw.None? && contents.None? && encoding.None? && cookies == []
    {
      this.platform := platform;
      this.request := request;
      this.budget := budget;
      connection := None;
      raw := None;
      contents := None;
      encoding := None;
      cookies := [];
    }

    /** What reading the connection now would give. */
    ghost function Attempt(): Result<Landing>
      reads this
    {
      if connection.Some? then Ok(connection.value) else Opened(platform, request, cookies, budget).0
    }

    /** `openRedirectingConnection(receiver)` on `url`: the initializers,
        the exchange, the jar update, then the decision. */
    method OpenRedirecting(url: string, fuel: nat) returns (r: Result<Landing>)
      modifies this`cookies
      ensures (r, cookies) == Redirecting(platform, request, url, old(cookies), fuel)
      decreases fuel
    {
      var wire := EarliestWire(request, url, cookies);
      if wire.Err? {
        return Err(wire.error);
      }
      var ex := platform.transport(wire.value);
      var received := SetCookieJar(ex.fields);
      if received.Err? {
        return Err(received.error);
      }
      cookies := PutAll(cookies, AsMap(received.value));
      assert EarliestVisit(platform, request, url, old(cookies)) == Ok((ex, cookies));
      ghost var step := Answered(platform, request, url, ex, cookies, fuel);
      if !(request.allowRedirects && 301 <= ex.status <= 303) {
        return Ok(Landing(url, ex));
      }
      if fuel == 0 {
        return Err(TooManyRedirects);
      }
      var location := LastHeader(ex.fields, LocationField);
      if location.None? {
        return Err(NullPointer);
      }
      var target := platform.resolve(url, location.value);
      if target.None? {
        return Err(UnresolvableLocation);
      }
      assert Target(platform, url, ex) == Ok(target.value);
      assert step == Redirecting(platform, request, target.value, cookies, fuel - 1);
      r := OpenRedirecting(target.value, fuel - 1);
    }

    /** The state the `connection` getter leaves: a cached connection
        changes nothing; otherwise the jar is the one the recursive open
        leaves, and the connection is kept when it succeeds. */
    twostate predicate Connected()
      reads this
    {
      if old(connection).Some? then connection == old(connection) && cookies == old(cookies)
      else
        cookies == Opened(platform, request, old(cookies), budget).1 &&
        connection == (if old(Attempt()).Ok? then Some(old(Attempt()).value) else None)
    }

    /** The `connection` getter: the cached connection, or a new one, kept
        when it succeeds. */
    method Connection() returns (r: Result<Landing>)
      modifies this`connection, this`cookies
      ensures r == old(Attempt())
      ensures Connected()
    {
      if connection.Some? {
        return Ok(connection.value);
      }
      if platform.url(request.url).None? {
        return Err(MalformedUrl);
      }
      r := OpenRedirecting(request.url, budget);
      if r.Ok? {
        connection := Some(r.value);
      }
    }

    /** `statusCode`. */
    method StatusCode() returns (r: Result<int>)
      modifies this`connection, this`cookies
      ensures r == match old(Attempt()) case Ok(l) => Ok(l.exchange.status) case Err(e) => Err(e)
      ensures Connected()
    {
      var c := Connection();
      r := if c.Ok? then Ok(c.value.exchange.status) else Err(c.error);
    }

    /** `headers`: each field of the connection with its last value. */
    method Headers() returns (r: Result<Entries<Option<string>, string>>)
      modifies this`connection, this`cookies
      ensures r == match old(Attempt()) case Ok(l) => LastValues(l.exchange.fields) case Err(e) => Err(e)
      ensures Connected()
    {
      var c := Connection();
      r := if c.Ok? then LastValues(c.value.exchange.fields) else Err(c.error);
    }

    /** `url`: the URL of the final connection. */
    method Url() returns (r: Result<string>)
      modifies this`connection, this`cookies
      ensures r == match old(Attempt()) case Ok(l) => Ok(l.url) case Err(e) => Err(e)
      ensures Connected()
    {
      var c := Connection();
      r := if c.Ok? then Ok(c.value.url) else Err(c.error);
    }

    /** `cookies`: connects first, then answers the jar. */
    method Cookies() returns (r: Result<Entries<string, string>>)
      modifies this`connection, this`cookies
      ensures r.Ok? <==> old(Attempt()).Ok?
      ensures r.Ok? ==> r.value == cookies
      ensures Connected()
    {
      var c := Connection();
      r := if c.Ok? then Ok(cookies) else Err(c.error);
    }

    /** `raw`: the cached stream, or the connection's body through the
        decoder its exact `Content-Encoding` header names. */
    method Raw() returns (r: Result<seq<byte>>)
      modifies this`raw, this`connection, this`cookies
      ensures old(raw).Some? ==> r == Ok(old(raw).value) && unchanged(this)
      ensures old(raw).None? ==>
        r == (match old(Attempt()) case Ok(l) => Stream(platform, l) case Err(e) => Err(e)) &&
        raw == (if r.Ok? then Some(r.value) else None) && Connected()
    {
      if raw.Some? {
        return Ok(raw.value);
      }
      var c := Connection();
      if c.Err? {
        return Err(c.error);
      }
      var h := LastValues(c.value.exchange.fields);
      if h.Err? {
        return Err(h.error);
      }
      var bytes := platform.inflate(DecoderNamed(Get(h.value, Some(ContentEncodingField))), c.value.exchange.body);
      raw := Some(bytes);
      r := Ok(bytes);
    }

    /** `content`: the cached content, or the whole stream. */
    method Content() returns (r: Result<seq<byte>>)
      modifies this`contents, this`raw, this`connection, this`cookies
      ensures old(contents).Some? ==> r == Ok(old(contents).value) && unchanged(this)
      ensures old(contents).None? && old(raw).Some? ==>
        r == Ok(old(raw).value) && contents == old(raw) && raw == old(raw) &&
        connection == old(connection) && cookies == old(cookies)
      ensures old(contents).None? && old(raw).None? ==>
        r == (match old(Attempt()) case Ok(l) => Stream(platform, l) case Err(e) => Err(e)) &&
        contents == raw == (if r.Ok? then Some(r.value) else None) && Connected()
    {
      if contents.Some? {
        return Ok(contents.value);
      }
      r := Raw();
      if r.Ok? {
        contents := Some(r.value);
      }
    }

    /** The `encoding` getter: the charset set on the response, else the
        answer's. */
    method Encoding() returns (r: Result<Charset>)
      modifies this`connection, this`cookies
      ensures old(encoding).Some? ==> r == Ok(old(encoding).value) && unchanged(this)
      ensures old(encoding).None? ==>
        (r == match old(Attempt()) case Ok(l) => EarliestCharset(platform, l.exchange.fields) case Err(e) => Err(e)) &&
        Connected()
    {
      if encoding.Some? {
        return Ok(encoding.value);
      }
      var c := Connection();
      if c.Err? {
        return Err(c.error);
      }
      r := EarliestCharset(platform, c.value.exchange.fields);
    }

    /** The `encoding` setter. */
    method SetEncoding(c: Charset)
      modifies this`encoding
      ensures encoding == Some(c)
    {
      encoding := Some(c);
    }

    /** `text`: the content decoded with the encoding. */
    method Text() returns (r: Result<string>)
      modifies this`contents, this`raw, this`connection, this`cookies
      ensures r.Ok? ==> contents.Some? && exists cs :: r.value == platform.decode(contents.value, cs)
      ensures old(contents).Some? && old(encoding).Some? ==>
        r == Ok(platform.decode(old(contents).value, old(encoding).value)) && unchanged(this)
    {
      var bytes := Content();
      if bytes.Err? {
        return Err(bytes.error);
      }
      var cs := Encoding();
      if cs.Err? {
        return Err(cs.error);
      }
      r := Ok(platform.decode(bytes.value, cs.value));
    }
  }
}

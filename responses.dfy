/** `GenericResponse`: a response that connects on first use, follows
    redirects by creating one response object per hop, records the hops in
    the first response's history, and caches its connection, its decoded
    stream and its content.  The same class, with `revision == Interim`,
    models the earlier `KHttpGenericResponse` of `khttp.responses`, whose
    hops only connect and never read their content. */
module Responses {
  import opened Wrappers
  import opened OrderedMaps
  import opened CookieJars
  import HeaderMaps
  import opened Platforms
  import opened Requests
  import opened Redirects
  import opened Text

  /** Which revision of the engine a response runs. */
  datatype Revision = Current | Interim

  /** Success or the failure of an outcome, without its value. */
  function Status<T>(r: Result<T>): (s: Result<()>)
    ensures s.Ok? <==> r.Ok?
    ensures r.Err? ==> s.error == r.error
  {
    if r.Ok? then Ok(()) else Err(r.error)
  }

  /** What a hop response holds once the hop that created it is done: the
      hop's request, exchange and jar, the history it was given, no
      encoding set; and, in the current revision without streaming, the
      content it was told to download. */
  predicate Reached(o: GenericResponse, hop: Hop, prefix: seq<GenericResponse>, p: Platform, rev: Revision)
    reads o
  {
    o.revision == rev && o.request == hop.request &&
    o.connection == Some(hop.exchange) && o.cookies == hop.cookies && o.history == prefix &&
    o.encoding.None? &&
    if rev == Current && !hop.request.stream then o.raw == Some(Decoded(p, hop.exchange)) && o.contents == o.raw
    else o.raw.None? && o.contents.None?
  }

  /** The responses `rs` created for the hops `hops`, in order, each with
      the history it was given: `prefix` and the responses before it. */
  predicate Recorded(hops: seq<Hop>, rs: seq<GenericResponse>, prefix: seq<GenericResponse>, p: Platform, rev: Revision)
    reads rs
    decreases |rs|
  {
    |rs| == |hops| &&
    (|rs| == 0 || (Reached(rs[0], hops[0], prefix, p, rev) && Recorded(hops[1..], rs[1..], prefix + [rs[0]], p, rev)))
  }

  class GenericResponse {
    const platform: Platform
    const request: GenericRequest
    const revision: Revision
    /** How many hops may still follow this response's own connection. */
    const budget: nat
    /** `_history`. */
    var history: seq<GenericResponse>
    /** `_connection`: the exchange once connected. */
    var connection: Option<Exchange>
    /** `_raw`: the bytes the decoding stream delivers. */
    var raw: Option<seq<byte>>
    /** `_contents`. */
    var contents: Option<seq<byte>>
    /** `_encoding`: the charset set by the caller, if any. */
    var encoding: Option<Charset>
    /** `_cookies`: the response's cookie jar as a name-to-value map. */
    var cookies: Entries<string, string>

    constructor(platform: Platform, request: GenericRequest, revision: Revision, budget: nat)
      ensures this.platform == platform && this.request == request
      ensures this.revision == revision && this.budget == budget
      ensures history == [] && connection.None? && raw.None? && contents.None?
      ensures encoding.None? && cookies == []
    {
      this.platform := platform;
      this.request := request;
      this.revision := revision;
      this.budget := budget;
      history := [];
      connection := None;
      raw := None;
      contents := None;
      encoding := None;
      cookies := [];
    }

    /** `_history.firstOrNull() ?: this`: the response the chain started
        from. */
    function First(): GenericResponse
      reads this
    {
      if history == [] then this else history[0]
    }

    /** The first response of a non-empty history lists itself first. */
    predicate Rooted()
      reads this, First()
    {
      history == [] || (First().history != [] && First().history[0] == First())
    }

    /** What connecting now would give: the cached exchange, or the first
        exchange of the chain from this response. */
    ghost function Attempt(): Result<Exchange>
      reads this, First()
    {
      if connection.Some? then Ok(connection.value)
      else
        match Chain(platform, First().request, request, cookies, budget)
        case Ok(hops) => Ok(hops[0].exchange)
        case Err(e) => Err(e)
    }

    twostate predicate Unmoved(f: GenericResponse)
      reads this, f
    {
      connection == old(connection) && cookies == old(cookies) && history == old(history) &&
      f.history == old(f.history)
    }

    /** The state after `connection` was read, with `f` the first response
        and `news` the responses created for the hops: a cached connection
        changes nothing; otherwise, once the chain succeeds, this response
        holds the chain's first exchange and jar, and the first response's
        history has gained one response per later hop. */
    twostate predicate Connected(f: GenericResponse, new news: seq<GenericResponse>)
      reads this, f, news
    {
      if old(connection).Some? then news == [] && Unmoved(f)
      else
        var c := Chain(platform, f.request, request, old(cookies), budget);
        var base := if old(history) == [] then [this] else old(f.history);
        c.Ok? ==>
          connection == Some(c.value[0].exchange) && cookies == c.value[0].cookies &&
          f.history == base + news && (this != f ==> history == old(history)) &&
          Recorded(c.value[1..], news, base, platform, revision)
    }

    /** The state after `raw` was read: a cached stream changes nothing;
        otherwise the connection is read and the stream is its body through
        the decoder `Content-Encoding` names. */
    twostate predicate RawRead(f: GenericResponse, new s: Result<()>, new news: seq<GenericResponse>)
      reads this, f, news
    {
      if old(raw).Some? then s.Ok? && news == [] && Unmoved(f) && raw == old(raw)
      else
        s == Status(old(Attempt())) && Connected(f, news) &&
        (s.Ok? ==> connection.Some? && raw == Some(Decoded(platform, connection.value)))
    }

    /** The state after `content` was read: cached content changes nothing;
        otherwise the content is the whole stream. */
    twostate predicate ContentRead(f: GenericResponse, new s: Result<()>, new news: seq<GenericResponse>)
      reads this, f, news
    {
      if old(contents).Some? then s.Ok? && news == [] && Unmoved(f) && raw == old(raw) && contents == old(contents)
      else RawRead(f, s, news) && (s.Ok? ==> contents == raw)
    }

    /** `openRedirectingConnection`: one connection, then, when the first
        response's request allows redirects and the answer is a 301, 302 or
        303, a new response for the `Location` that is recorded in the first
        response's history and initialized in turn.  The result and the
        state are those of the chain from this response. */
    method Open(first: GenericResponse) returns (r: Result<Exchange>, ghost news: seq<GenericResponse>)
      requires first.history != [] && first.history[0] == first
      modifies this`cookies, first`history
      decreases budget, 1
      ensures var c := Chain(platform, first.request, request, old(cookies), budget);
        (r.Ok? <==> c.Ok?) && (r.Err? ==> r.error == c.error) &&
        (c.Ok? ==>
           (r.value == c.value[0].exchange && cookies == c.value[0].cookies &&
            first.history == old(first.history) + news &&
            Recorded(c.value[1..], news, old(first.history), platform, revision)))
      ensures first.history != [] && first.history[0] == first
      ensures forall o :: o in news ==> fresh(o)
    {
      news := [];
      var wire := Wire(platform, request, cookies);
      if wire.Err? {
        return Err(wire.error), [];
      }
      var ex := platform.transport(wire.value);
      var received := SetCookieJar(ex.fields);
      if received.Err? {
        return Err(received.error), [];
      }
      cookies := PutAll(cookies, AsMap(received.value));
      if !Follows(first.request, ex) {
        return Ok(ex), [];
      }
      if budget == 0 {
        return Err(TooManyRedirects), [];
      }
      var location := LastHeader(ex.fields, LocationField);
      if location.None? {
        return Err(NullPointer), [];
      }
      var target := platform.resolve(request.url, location.value);
      if target.None? {
        return Err(UnresolvableLocation), [];
      }
      var built := Build(platform, NextArguments(first.request, target.value, received.value), "");
      if built.Err? {
        return Err(built.error), [];
      }
      var done;
      done, news := Follow(first, built.value, AsMap(received.value));
      if done.Err? {
        return Err(done.error), news;
      }
      r := Ok(ex);
    }

    /** The hop of `openRedirectingConnection`: a new response for the next
        request, starting from the cookies the redirect set, given the first
        response's history and then appended to it, and initialized (in the
        interim revision, only connected).  The outcome and the recorded
        responses are those of the chain from the next request. */
    method Follow(first: GenericResponse, next: GenericRequest, hop: Entries<string, string>)
      returns (r: Result<()>, ghost news: seq<GenericResponse>)
      requires first.history != [] && first.history[0] == first && budget > 0
      modifies first`history
      decreases budget, 0
      ensures var c := Chain(platform, first.request, next, PutAll([], hop), budget - 1);
        r == Status(c) &&
        (c.Ok? ==>
           (first.history == old(first.history) + news &&
            Recorded(c.value, news, old(first.history), platform, revision)))
      ensures first.history != [] && first.history[0] == first
      ensures forall o :: o in news ==> fresh(o)
    {
      var response := new GenericResponse(platform, next, revision, budget - 1);
      response.cookies := PutAll(response.cookies, hop);
      response.history := first.history;
      first.history := first.history + [response];
      r, news := response.Start(first, platform, next, PutAll([], hop), budget - 1);
    }

    /** What a hop response does once recorded: `init()` in the current
        revision, only `connection` in the interim one.  It then holds the
        first hop of the chain from its request, and the first response's
        history has gained it and the responses of the later hops. */
    method Start(first: GenericResponse, ghost p: Platform, ghost req: GenericRequest,
                 ghost jar: Entries<string, string>, ghost b: nat)
      returns (r: Result<()>, ghost news: seq<GenericResponse>)
      requires history != [] && history[0] == first && first != this && first.history == history + [this]
      requires first.history != [] && first.history[0] == first
      requires connection.None? && raw.None? && contents.None? && encoding.None?
      requires platform == p && request == req && cookies == jar && budget == b
      modifies this`contents, this`raw, this`connection, this`cookies, this`history, first`history
      decreases budget, 8
      ensures first.history != [] && first.history[0] == first
      ensures var c := Chain(p, first.request, req, jar, b);
        r == Status(c) &&
        (c.Ok? ==>
           first.history == old(history) + news &&
           Recorded(c.value, news, old(history), p, revision))
      ensures news != [] && news[0] == this && forall o :: o in news ==> fresh(o) || o == this
    {
      if revision == Current {
        r, news := StartCurrent(first, p, req, jar, b);
      } else {
        r, news := StartInterim(first, p, req, jar, b);
      }
    }

    method StartCurrent(first: GenericResponse, ghost p: Platform, ghost req: GenericRequest,
                 ghost jar: Entries<string, string>, ghost b: nat)
      returns (r: Result<()>, ghost news: seq<GenericResponse>)
      requires revision == Current
      requires history != [] && history[0] == first && first != this && first.history == history + [this]
      requires first.history != [] && first.history[0] == first
      requires connection.None? && raw.None? && contents.None? && encoding.None?
      requires platform == p && request == req && cookies == jar && budget == b
      modifies this`contents, this`raw, this`connection, this`cookies, this`history, first`history
      decreases budget, 7
      ensures first.history != [] && first.history[0] == first
      ensures var c := Chain(p, first.request, req, jar, b);
        r == Status(c) &&
        (c.Ok? ==>
           first.history == old(history) + news &&
           Recorded(c.value, news, old(history), p, revision))
      ensures news != [] && news[0] == this && forall o :: o in news ==> fresh(o) || o == this
    {
      ghost var c := Chain(p, first.request, req, jar, b);
      ghost var inner;
      r, inner := Init();
      Associative(old(history), [this], inner);
      news := [this] + inner;
      if c.Ok? {
        assert Reached(this, c.value[0], old(history), p, revision);
        RecordedCons(this, c.value[0], c.value[1..], inner, old(history), p, revision);
        assert [c.value[0]] + c.value[1..] == c.value;
      }
    }

    method StartInterim(first: GenericResponse, ghost p: Platform, ghost req: GenericRequest,
                 ghost jar: Entries<string, string>, ghost b: nat)
      returns (r: Result<()>, ghost news: seq<GenericResponse>)
      requires revision == Interim
      requires history != [] && history[0] == first && first != this && first.history == history + [this]
      requires first.history != [] && first.history[0] == first
      requires connection.None? && raw.None? && contents.None? && encoding.None?
      requires platform == p && request == req && cookies == jar && budget == b
      modifies this`contents, this`raw, this`connection, this`cookies, this`history, first`history
      decreases budget, 7
      ensures first.history != [] && first.history[0] == first
      ensures var c := Chain(p, first.request, req, jar, b);
        r == Status(c) &&
        (c.Ok? ==>
           first.history == old(history) + news &&
           Recorded(c.value, news, old(history), p, revision))
      ensures news != [] && news[0] == this && forall o :: o in news ==> fresh(o) || o == this
    {
      ghost var c := Chain(p, first.request, req, jar, b);
      var connected;
      ghost var inner;
      connected, inner := Connection();
      r := Status(connected);
      Associative(old(history), [this], inner);
      news := [this] + inner;
      if c.Ok? {
        assert Reached(this, c.value[0], old(history), p, revision);
        RecordedCons(this, c.value[0], c.value[1..], inner, old(history), p, revision);
        assert [c.value[0]] + c.value[1..] == c.value;
      }
    }

    /** The `connection` getter. */
    method Connection() returns (r: Result<Exchange>, ghost news: seq<GenericResponse>)
      requires Rooted()
      modifies this`connection, this`cookies, this`history, First()`history
      decreases budget, 2
      ensures r == old(Attempt()) && Connected(old(First()), news)
      ensures First() == old(First()) && Rooted()
      ensures forall o :: o in news ==> fresh(o)
    {
      if connection.Some? {
        return Ok(connection.value), [];
      }
      if history == [] {
        history := [this];
      }
      var first := history[0];
      r, news := Open(first);
      assert this !in news;
      if r.Ok? {
        connection := Some(r.value);
      }
    }

    /** The `raw` getter. */
    method Raw() returns (r: Result<seq<byte>>, ghost news: seq<GenericResponse>)
      requires Rooted()
      modifies this`raw, this`connection, this`cookies, this`history, First()`history
      decreases budget, 3
      ensures RawRead(old(First()), Status(r), news) && (r.Ok? ==> raw == Some(r.value))
      ensures First() == old(First()) && Rooted()
      ensures forall o :: o in news ==> fresh(o)
    {
      if raw.Some? {
        return Ok(raw.value), [];
      }
      var c;
      c, news := Connection();
      assert this !in news;
      if c.Err? {
        return Err(c.error), news;
      }
      raw := Some(Decoded(platform, c.value));
      r := Ok(raw.value);
    }

    /** The `content` getter. */
    method Content() returns (r: Result<seq<byte>>, ghost news: seq<GenericResponse>)
      requires Rooted()
      modifies this`contents, this`raw, this`connection, this`cookies, this`history, First()`history
      decreases budget, 4
      ensures ContentRead(old(First()), Status(r), news) && (r.Ok? ==> contents == Some(r.value))
      ensures First() == old(First()) && Rooted()
      ensures forall o :: o in news ==> fresh(o)
    {
      if contents.Some? {
        return Ok(contents.value), [];
      }
      r, news := Raw();
      assert this !in news;
      if r.Ok? {
        contents := Some(r.value);
      }
    }

    /** `init`: connect when streaming, else download the content. */
    method Init() returns (r: Result<()>, ghost news: seq<GenericResponse>)
      requires Rooted()
      modifies this`contents, this`raw, this`connection, this`cookies, this`history, First()`history
      decreases budget, 5
      ensures request.stream ==>
        (r == Status(old(Attempt())) && Connected(old(First()), news) &&
         raw == old(raw) && contents == old(contents))
      ensures !request.stream ==> ContentRead(old(First()), r, news)
      ensures First() == old(First()) && Rooted()
      ensures forall o :: o in news ==> fresh(o)
    {
      if request.stream {
        var c;
        c, news := Connection();
        r := Status(c);
      } else {
        var c;
        c, news := Content();
        r := Status(c);
      }
    }

    /** The charset text is decoded with, when it is known without
        connecting: the one set on the response, else the answer's. */
    function CurrentCharset(): Option<Result<Charset>>
      reads this
    {
      if encoding.Some? then Some(Ok(encoding.value))
      else if connection.Some? then Some(AnswerCharset(platform, connection.value.fields))
      else None
    }

    /** The `encoding` getter: the charset set on the response, else the one
        the answer's `Content-Type` names (reading the connection first),
        else UTF-8. */
    method Encoding() returns (r: Result<Charset>, ghost news: seq<GenericResponse>)
      requires Rooted()
      modifies this`connection, this`cookies, this`history, First()`history
      ensures old(encoding).Some? ==> r == Ok(old(encoding).value) && news == [] && Unmoved(old(First()))
      ensures old(encoding).None? ==>
        (Connected(old(First()), news) &&
         r == match old(Attempt()) case Ok(ex) => AnswerCharset(platform, ex.fields) case Err(e) => Err(e))
      ensures r.Ok? ==> CurrentCharset() == Some(r)
      ensures First() == old(First()) && Rooted()
      ensures forall o :: o in news ==> fresh(o)
    {
      if encoding.Some? {
        return Ok(encoding.value), [];
      }
      var c;
      c, news := Connection();
      if c.Err? {
        return Err(c.error), news;
      }
      r := AnswerCharset(platform, c.value.fields);
    }

    /** The `encoding` setter. */
    method SetEncoding(c: Charset)
      modifies this`encoding
      ensures encoding == Some(c)
    {
      encoding := Some(c);
    }

    /** The `text` getter: the content, read once, decoded with the charset
        in force when asked; with the content and the connection cached,
        nothing is read again. */
    method Text() returns (r: Result<string>, ghost news: seq<GenericResponse>)
      requires Rooted()
      modifies this`contents, this`raw, this`connection, this`cookies, this`history, First()`history
      ensures r.Ok? ==>
        (contents.Some? && CurrentCharset().Some? && CurrentCharset().value.Ok? &&
         r.value == platform.decode(contents.value, CurrentCharset().value.value))
      ensures old(contents).Some? && old(CurrentCharset()).Some? ==>
        (news == [] && Unmoved(old(First())) && contents == old(contents) && raw == old(raw) &&
         r == match old(CurrentCharset()).value
              case Ok(cs) => Ok(platform.decode(old(contents).value, cs))
              case Err(e) => Err(e))
      ensures First() == old(First()) && Rooted()
      ensures forall o :: o in news ==> fresh(o)
    {
      var c;
      c, news := Content();
      if c.Err? {
        return Err(c.error), news;
      }
      var e;
      ghost var more;
      e, more := Encoding();
      news := news + more;
      if e.Err? {
        return Err(e.error), news;
      }
      r := Ok(platform.decode(c.value, e.value));
    }

    /** The `statusCode` getter. */
    method StatusCode() returns (r: Result<int>, ghost news: seq<GenericResponse>)
      requires Rooted()
      modifies this`connection, this`cookies, this`history, First()`history
      ensures Connected(old(First()), news) &&
        r == match old(Attempt()) case Ok(ex) => Ok(ex.status) case Err(e) => Err(e)
      ensures First() == old(First()) && Rooted()
      ensures forall o :: o in news ==> fresh(o)
    {
      var c;
      c, news := Connection();
      if c.Err? {
        return Err(c.error), news;
      }
      r := Ok(c.value.status);
    }

    /** `toString()`: `<Response [status]>`, connecting first. */
    method ToString() returns (r: Result<string>, ghost news: seq<GenericResponse>)
      requires Rooted()
      modifies this`connection, this`cookies, this`history, First()`history
      ensures Connected(old(First()), news) &&
        r == match old(Attempt()) case Ok(ex) => Ok(StatusText(ex.status)) case Err(e) => Err(e)
      ensures First() == old(First()) && Rooted()
      ensures forall o :: o in news ==> fresh(o)
    {
      var code;
      code, news := StatusCode();
      if code.Err? {
        return Err(code.error), news;
      }
      r := Ok("<Response [" + IntText(code.value) + "]>");
    }

    /** The `headers` getter: the case-insensitive view of the answer's
        fields, connecting first. */
    method Headers() returns (r: Result<HeaderMaps.CaseInsensitiveMap<string>>, ghost news: seq<GenericResponse>)
      requires Rooted()
      modifies this`connection, this`cookies, this`history, First()`history
      ensures Connected(old(First()), news) &&
        r == match old(Attempt()) case Ok(ex) => Ok(FieldMap(ex.fields)) case Err(e) => Err(e)
      ensures First() == old(First()) && Rooted()
      ensures forall o :: o in news ==> fresh(o)
    {
      var c;
      c, news := Connection();
      if c.Err? {
        return Err(c.error), news;
      }
      r := Ok(FieldMap(c.value.fields));
    }

    /** The `cookies` getter: the response's jar, once connected. */
    method Cookies() returns (r: Result<Entries<string, string>>, ghost news: seq<GenericResponse>)
      requires Rooted()
      modifies this`connection, this`cookies, this`history, First()`history
      ensures Connected(old(First()), news) && Status(r) == Status(old(Attempt()))
      ensures r.Ok? ==> r.value == cookies
      ensures First() == old(First()) && Rooted()
      ensures forall o :: o in news ==> fresh(o)
    {
      var c;
      c, news := Connection();
      if c.Err? {
        return Err(c.error), news;
      }
      r := Ok(cookies);
    }

    /** The `url` getter: the address this response connected to. */
    method Url() returns (r: Result<string>, ghost news: seq<GenericResponse>)
      requires Rooted()
      modifies this`connection, this`cookies, this`history, First()`history
      ensures Connected(old(First()), news) &&
        r == match old(Attempt()) case Ok(_) => Ok(request.url) case Err(e) => Err(e)
      ensures First() == old(First()) && Rooted()
      ensures forall o :: o in news ==> fresh(o)
    {
      var c;
      c, news := Connection();
      if c.Err? {
        return Err(c.error), news;
      }
      r := Ok(request.url);
    }
  }

  lemma Associative<T>(a: seq<T>, b: seq<T>, c: seq<T>)
    ensures a + b + c == a + (b + c)
  {
  }

  lemma RecordedCons(o: GenericResponse, hop: Hop, hops: seq<Hop>, rs: seq<GenericResponse>,
                     prefix: seq<GenericResponse>, p: Platform, rev: Revision)
    requires Reached(o, hop, prefix, p, rev) && Recorded(hops, rs, prefix + [o], p, rev)
    ensures Recorded([hop] + hops, [o] + rs, prefix, p, rev)
  {
    assert ([hop] + hops)[1..] == hops && ([o] + rs)[1..] == rs;
  }

  /** The text of a response with the given status. */
  function StatusText(status: int): string
  {
    "<Response [" + IntText(status) + "]>"
  }

  /** The status can be read back from the text. */
  lemma StatusTextReads(status: int)
    ensures var t := StatusText(status);
      |t| >= 13 && t[..11] == "<Response [" && t[|t| - 2..] == "]>" && ParseInt(t[11..|t| - 2]) == Some(status)
  {
    var t := StatusText(status);
    IntTextRoundTrip(status);
    NatTextDigits(if status < 0 then -status else status);
    assert t[11..|t| - 2] == IntText(status);
  }
}

/** What one connection of a `GenericResponse` sends and receives, and the
    chain of connections a redirect produces: the request of each hop, the
    exchange the platform answers it with, and the cookie jar the response
    object holds after it.  The class that walks this chain step by step is
    in the `Responses` module. */
module Redirects {
  import opened Wrappers
  import opened Text
  import opened OrderedMaps
  import opened Cookies
  import opened CookieJars
  import HeaderMaps
  import opened ParameterEncoding
  import opened Platforms
  import opened Requests

  /** `HttpURLConnection.headerFields`. */
  type Fields = Entries<Option<string>, seq<string>>

  const SetCookieField := "Set-Cookie"
  const CookieField := "Cookie"
  const LocationField := "Location"
  const ContentTypeField := "Content-Type"
  const ContentEncodingField := "Content-Encoding"

  /* ---------------------------------------------------------------------
     The cookies a response sets
     --------------------------------------------------------------------- */

  /** The values of the fields whose name is exactly `Set-Cookie`, in order. */
  function SetCookieTexts(fields: Fields): seq<string>
    decreases |fields|
  {
    if |fields| == 0 then []
    else (if fields[0].0 == Some(SetCookieField) then fields[0].1 else []) + SetCookieTexts(fields[1..])
  }

  /** `map { Cookie(it) }`: the first text that does not parse fails all. */
  function ParseAll(texts: seq<string>): Result<seq<Cookie>>
    decreases |texts|
  {
    if |texts| == 0 then Ok([])
    else
      var first := Parse(texts[0]);
      var rest := ParseAll(texts[1..]);
      if first.Err? then Err(first.error)
      else if rest.Err? then Err(rest.error)
      else Ok([first.value] + rest.value)
  }

  /** All the texts parse or the whole fails. */
  lemma {:induction false} ParseAllOk(texts: seq<string>)
    ensures ParseAll(texts).Ok? <==> forall i :: 0 <= i < |texts| ==> Parse(texts[i]).Ok?
    decreases |texts|
  {
    if |texts| > 0 {
      var rest := texts[1..];
      ParseAllOk(rest);
      assert forall i :: 1 <= i < |texts| ==> rest[i - 1] == texts[i];
    }
  }

  /** The cookies are the parses of the texts, one each, in order. */
  lemma {:induction false} ParseAllValues(texts: seq<string>)
    requires ParseAll(texts).Ok?
    ensures |ParseAll(texts).value| == |texts|
    ensures forall i :: 0 <= i < |texts| ==> Parse(texts[i]) == Ok(ParseAll(texts).value[i])
    decreases |texts|
  {
    if |texts| > 0 {
      var rest := texts[1..];
      ParseAllValues(rest);
      var r := ParseAll(texts).value;
      assert r == [Parse(texts[0]).value] + ParseAll(rest).value;
      forall i | 0 <= i < |texts| ensures Parse(texts[i]) == Ok(r[i]) {
        if i > 0 { assert r[i] == ParseAll(rest).value[i - 1] && rest[i - 1] == texts[i]; }
      }
    }
  }

  /** The `cookieJar` of a connection: one cookie per `Set-Cookie` value. */
  function SetCookieJar(fields: Fields): Result<CookieJar>
  {
    var cookies :- ParseAll(SetCookieTexts(fields));
    Ok(CookieJar(cookies))
  }

  /** With the names distinct, the `Set-Cookie` texts are the values of the
      one field named exactly so; a field named `set-cookie` or `SET-COOKIE`
      is not read, and without the field there are none. */
  lemma {:induction false} SetCookieTextsAt(fields: Fields, i: nat)
    requires DistinctKeys(fields) && i < |fields| && fields[i].0 == Some(SetCookieField)
    ensures SetCookieTexts(fields) == fields[i].1
    decreases |fields|
  {
    var rest := fields[1..];
    if i == 0 {
      SetCookieTextsAbsent(rest);
    } else {
      assert rest[i - 1] == fields[i];
      SetCookieTextsAt(rest, i - 1);
    }
  }

  lemma {:induction false} SetCookieTextsAbsent(fields: Fields)
    requires forall j :: 0 <= j < |fields| ==> fields[j].0 != Some(SetCookieField)
    ensures SetCookieTexts(fields) == []
    decreases |fields|
  {
    if |fields| > 0 {
      assert forall j :: 0 <= j < |fields| - 1 ==> fields[1..][j] == fields[j + 1];
      SetCookieTextsAbsent(fields[1..]);
    }
  }

  /* ---------------------------------------------------------------------
     What a connection sends
     --------------------------------------------------------------------- */

  /** The text the body initializer writes: a map that is not `Parameters`
      becomes `Parameters` first; anything else is written as its text. */
  function SentBody(d: Data): string
  {
    match d
    case MapData(m) => QueryText(OfMap(m).entries)
    case _ => DataText(d)
  }

  /** A plain map body is sent form-encoded, exactly as the same map given
      as `Parameters`; every other body is sent as its own text. */
  lemma SentBodyForm(d: Data)
    ensures d.MapData? ==> SentBody(d) == DataText(ParametersData(OfMap(d.entries)))
    ensures !d.MapData? ==> SentBody(d) == DataText(d)
  {
  }

  /** The `Cookie` header of the cookie initializer: none without request
      cookies, else the jar built from the request cookies with the
      response's own cookies put over them. */
  function CookieHeader(req: GenericRequest, jar: Entries<string, string>): Result<Option<string>>
  {
    match req.cookies
    case None => Ok(None)
    case Some(cookies) =>
      var text :- MapHeader(PutAll(cookies, jar));
      Ok(Some(text))
  }

  /** The request properties: the headers in order, then the cookies. */
  function Properties(headers: Entries<string, string>, cookie: Option<string>): Entries<string, string>
  {
    if cookie.Some? then Put(headers, CookieField, cookie.value) else headers
  }

  /** What the initializers make of a connection. */
  function Wire(p: Platform, req: GenericRequest, jar: Entries<string, string>): Result<WireRequest>
  {
    var cookie :- CookieHeader(req, jar);
    Ok(WireRequest(req.httpMethod, req.url, Properties(req.headers, cookie), p.millis(req.timeout), false,
                   if req.data.Some? then Some(SentBody(req.data.value)) else None))
  }

  /** The headers of a request go out unchanged unless a `Cookie` header is
      sent; one is sent exactly when the request has cookies, and then its
      value is the jar text of the request cookies merged with the jar. */
  lemma WireSpec(p: Platform, req: GenericRequest, jar: Entries<string, string>)
    ensures Wire(p, req, jar).Ok? <==> req.cookies.None? || MapHeader(PutAll(req.cookies.value, jar)).Ok?
    ensures Wire(p, req, jar).Ok? ==> var w := Wire(p, req, jar).value;
      w.httpMethod == req.httpMethod && w.url == req.url && !w.followRedirects &&
      (req.cookies.None? ==> w.properties == req.headers) &&
      (req.cookies.Some? ==> Get(w.properties, CookieField) == Some(MapHeader(PutAll(req.cookies.value, jar)).value)) &&
      (forall k :: k != CookieField ==> Get(w.properties, k) == Get(req.headers, k)) &&
      (req.data.None? <==> w.body.None?)
  {
    if Wire(p, req, jar).Ok? && req.cookies.Some? {
      PutGet(req.headers, CookieField, MapHeader(PutAll(req.cookies.value, jar)).value);
    }
  }

  /** One connection: the wire request, the platform's answer, and the jar
      after the end initializer has put the answer's cookies into it. */
  function Visit(p: Platform, req: GenericRequest, jar: Entries<string, string>): Result<(Exchange, Entries<string, string>)>
  {
    var wire :- Wire(p, req, jar);
    var ex := p.transport(wire);
    var received :- SetCookieJar(ex.fields);
    Ok((ex, PutAll(jar, AsMap(received))))
  }

  /* ---------------------------------------------------------------------
     The next hop
     --------------------------------------------------------------------- */

  /** The decision of `openRedirectingConnection`, taken on the first
      response's request. */
  predicate Follows(first: GenericRequest, ex: Exchange)
  {
    first.allowRedirects && 301 <= ex.status <= 303
  }

  /** `getHeaderField(name)`: the last value of the last field whose name
      equals `name` ignoring case. */
  function LastHeader(fields: Fields, name: string): Option<string>
    decreases |fields|
  {
    if |fields| == 0 then None
    else
      var rest := LastHeader(fields[1..], name);
      if rest.Some? then rest
      else if fields[0].0.Some? && EqualsIgnoreCase(fields[0].0.value, name) && |fields[0].1| > 0 then
        Some(fields[0].1[|fields[0].1| - 1])
      else None
  }

  /** The arguments of the hop's `GenericRequest`: the first request's
      fields, the resolved location, the hop's cookies under the first
      request's cookies, no redirects, no files. */
  function NextArguments(first: GenericRequest, target: string, hop: CookieJar): Arguments
  {
    Arguments(first.httpMethod, target, first.params, first.headers, first.data, first.json, first.auth,
              Some(PutAll(AsMap(hop), first.cookies.GetOr([]))), first.timeout, Some(false), first.stream, [])
  }

  /** The request of the next hop and the jar its response starts with. */
  function NextRequest(p: Platform, first: GenericRequest, current: GenericRequest, ex: Exchange)
    : Result<(GenericRequest, Entries<string, string>)>
  {
    var hop :- SetCookieJar(ex.fields);
    var location := LastHeader(ex.fields, LocationField);
    if location.None? then Err(NullPointer)
    else
      match p.resolve(current.url, location.value)
      case None => Err(UnresolvableLocation)
      case Some(target) =>
        var next :- Built(p, NextArguments(first, target, hop), "");
        Ok((next, PutAll([], AsMap(hop))))
  }

  /** One connection of the chain: its request, the platform's exchange and
      the response's jar after it. */
  datatype Hop = Hop(request: GenericRequest, exchange: Exchange, cookies: Entries<string, string>)

  /** A connection: the exchange and the jar after it. */
  type Visitor = (GenericRequest, Entries<string, string>) -> Result<(Exchange, Entries<string, string>)>
  /** The request of the next hop and its jar, built from an answer. */
  type Redirector = (GenericRequest, Exchange) -> Result<(GenericRequest, Entries<string, string>)>

  /** The loop of `openRedirectingConnection`, over its three steps: connect,
      stop unless the answer is followed, build the next request and go on
      from it.  `budget` bounds the hops still allowed: the library has no
      bound and would recurse for ever on a redirect loop. */
  function Walk(visit: Visitor, follows: Exchange -> bool, next: Redirector,
                req: GenericRequest, jar: Entries<string, string>, budget: nat): (r: Result<seq<Hop>>)
    ensures r.Ok? ==> |r.value| >= 1
    decreases budget
  {
    match visit(req, jar)
    case Err(e) => Err(e)
    case Ok(v) =>
      if !follows(v.0) then Ok([Hop(req, v.0, v.1)])
      else if budget == 0 then Err(TooManyRedirects)
      else
        match next(req, v.0)
        case Err(e) => Err(e)
        case Ok(n) =>
          match Walk(visit, follows, next, n.0, n.1, budget - 1)
          case Err(e) => Err(e)
          case Ok(rest) => Ok([Hop(req, v.0, v.1)] + rest)
  }

  /** The connections made from `req` on, with `first` the request of the
      response the chain started from. */
  function Chain(p: Platform, first: GenericRequest, req: GenericRequest, jar: Entries<string, string>, budget: nat)
    : (r: Result<seq<Hop>>)
    ensures r.Ok? ==> |r.value| >= 1
  {
    Walk((r, j) => Visit(p, r, j), ex => Follows(first, ex), (r, ex) => NextRequest(p, first, r, ex), req, jar, budget)
  }

  /** One connection of the chain: the first hop is the visit of the given
      request; an answer that is not followed ends the chain, and one that
      is followed continues it from the next request, within the budget. */
  lemma ChainStep(p: Platform, first: GenericRequest, req: GenericRequest, jar: Entries<string, string>, budget: nat)
    requires Chain(p, first, req, jar, budget).Ok?
    ensures Visit(p, req, jar).Ok?
    ensures var v := Visit(p, req, jar).value;
      var hops := Chain(p, first, req, jar, budget).value;
      hops[0] == Hop(req, v.0, v.1) &&
      (!Follows(first, v.0) ==> hops == [hops[0]]) &&
      (Follows(first, v.0) ==>
        budget > 0 && NextRequest(p, first, req, v.0).Ok? &&
        var next := NextRequest(p, first, req, v.0).value;
        Chain(p, first, next.0, next.1, budget - 1).Ok? &&
        hops == [hops[0]] + Chain(p, first, next.0, next.1, budget - 1).value)
  {
  }

  /** Each hop but the last was followed, and its successor's request is
      the one built from its answer. */
  predicate Linked(follows: Exchange -> bool, next: Redirector, hops: seq<Hop>)
  {
    forall j :: 0 <= j < |hops| - 1 ==>
      follows(hops[j].exchange) && next(hops[j].request, hops[j].exchange).Ok? &&
      next(hops[j].request, hops[j].exchange).value.0 == hops[j + 1].request
  }

  lemma {:induction false} WalkShape(visit: Visitor, follows: Exchange -> bool, next: Redirector,
                                    req: GenericRequest, jar: Entries<string, string>, budget: nat)
    requires Walk(visit, follows, next, req, jar, budget).Ok?
    ensures var hops := Walk(visit, follows, next, req, jar, budget).value;
      1 <= |hops| <= budget + 1 && hops[0].request == req &&
      visit(req, jar) == Ok((hops[0].exchange, hops[0].cookies)) &&
      !follows(hops[|hops| - 1].exchange) && Linked(follows, next, hops)
    decreases budget
  {
    var hops := Walk(visit, follows, next, req, jar, budget).value;
    var v := visit(req, jar).value;
    if follows(v.0) {
      var n := next(req, v.0).value;
      WalkShape(visit, follows, next, n.0, n.1, budget - 1);
      var rest := Walk(visit, follows, next, n.0, n.1, budget - 1).value;
      assert hops == [hops[0]] + rest;
      forall j | 0 <= j < |hops| - 1
        ensures follows(hops[j].exchange) && next(hops[j].request, hops[j].exchange).Ok? &&
          next(hops[j].request, hops[j].exchange).value.0 == hops[j + 1].request
      {
        if j > 0 {
          assert hops[j] == rest[j - 1] && hops[j + 1] == rest[j];
        }
      }
    }
  }

  /** The chain starts with the given request; every hop but the last was
      a 301, 302 or 303 followed, its successor's request is the one built
      from its answer, and the last was not followed (a 307 or 308 ends the
      chain); there are at most `budget` hops after the first. */
  lemma ChainShape(p: Platform, first: GenericRequest, req: GenericRequest,
                   jar: Entries<string, string>, budget: nat)
    requires Chain(p, first, req, jar, budget).Ok?
    ensures var hops := Chain(p, first, req, jar, budget).value;
      1 <= |hops| <= budget + 1 && hops[0].request == req &&
      Visit(p, req, jar) == Ok((hops[0].exchange, hops[0].cookies)) &&
      !Follows(first, hops[|hops| - 1].exchange) &&
      forall j :: 0 <= j < |hops| - 1 ==>
        Follows(first, hops[j].exchange) && NextRequest(p, first, hops[j].request, hops[j].exchange).Ok? &&
        NextRequest(p, first, hops[j].request, hops[j].exchange).value.0 == hops[j + 1].request
  {
    WalkShape((r, j) => Visit(p, r, j), ex => Follows(first, ex), (r, ex) => NextRequest(p, first, r, ex), req, jar, budget);
  }

  /** A request that does not allow redirects makes exactly one connection,
      whatever the status; so does every status but 301, 302 and 303. */
  lemma SingleHop(p: Platform, first: GenericRequest, jar: Entries<string, string>, budget: nat)
    requires Chain(p, first, first, jar, budget).Ok?
    requires !first.allowRedirects || !(301 <= Chain(p, first, first, jar, budget).value[0].exchange.status <= 303)
    ensures |Chain(p, first, first, jar, budget).value| == 1
  {
    ChainShape(p, first, first, jar, budget);
  }

  /** The hop's request repeats the first request: same method, parameters,
      JSON, authorization, timeout and streaming; no redirects and no files;
      its data are what the first request's constructor kept; its URL is
      the `Location` resolved against the current URL, made a route with the
      first request's parameters once more; its cookies are the cookies the
      answer set, with the first request's cookies put over them; and its
      response starts with the cookies the answer set. */
  lemma NextRequestSpec(p: Platform, first: GenericRequest, current: GenericRequest, ex: Exchange)
    requires NextRequest(p, first, current, ex).Ok?
    ensures var hop := SetCookieJar(ex.fields).value;
      var target := p.resolve(current.url, LastHeader(ex.fields, LocationField).value).value;
      var next := NextRequest(p, first, current, ex).value.0;
      next.httpMethod == first.httpMethod && next.params == first.params && next.json == first.json &&
      next.auth == first.auth && next.timeout == first.timeout && next.stream == first.stream &&
      !next.allowRedirects && next.files == [] &&
      Some(next.data) == (if first.json.None? then Some(first.data) else Some(Some(TextData(CoerceToJson(first.json.value).value)))) &&
      Route(p, target, first.params) == Ok(next.url) &&
      next.cookies == Some(PutAll(AsMap(hop), first.cookies.GetOr([]))) &&
      NextRequest(p, first, current, ex).value.1 == PutAll([], AsMap(hop))
  {
    var hop := SetCookieJar(ex.fields).value;
    var target := p.resolve(current.url, LastHeader(ex.fields, LocationField).value).value;
    var a := NextArguments(first, target, hop);
    BuiltFields(p, a, "");
  }

  /** The next hop fails when its answer has no `Location` field, when the
      location does not resolve, or when its request cannot be built. */
  lemma NextRequestFails(p: Platform, first: GenericRequest, current: GenericRequest, ex: Exchange)
    requires SetCookieJar(ex.fields).Ok?
    ensures LastHeader(ex.fields, LocationField).None? ==> NextRequest(p, first, current, ex) == Err(NullPointer)
    ensures LastHeader(ex.fields, LocationField).Some? ==>
      (p.resolve(current.url, LastHeader(ex.fields, LocationField).value).None? ==>
        NextRequest(p, first, current, ex) == Err(UnresolvableLocation))
  {
  }

  /** `Map + Map` with distinct keys on the right: a key of the right-hand
      map takes its value, any other key keeps the left-hand one. */
  lemma MergeGet(m: Entries<string, string>, other: Entries<string, string>, k: string)
    requires DistinctKeys(other)
    ensures Get(PutAll(m, other), k) == if Get(other, k).Some? then Get(other, k) else Get(m, k)
  {
    PutAllGet(m, other, k);
    FromDistinctPairs(other);
    FromPairsSpec(other, k);
  }

  /** The cookies a hop sends: a cookie the previous answer set is sent with
      the value the answer gave, even where the first request named the same
      cookie (the response jar is put over the request cookies); any other
      cookie of the first request is sent as given. */
  lemma HopCookies(first: GenericRequest, hop: CookieJar, name: string)
    requires DistinctKeys(first.cookies.GetOr([]))
    ensures var jar := PutAll([], AsMap(hop));
      var sent := PutAll(PutAll(AsMap(hop), first.cookies.GetOr([])), jar);
      Get(sent, name) == if Get(AsMap(hop), name).Some? then Get(AsMap(hop), name) else Get(first.cookies.GetOr([]), name)
  {
    var m := AsMap(hop);
    var c := first.cookies.GetOr([]);
    FromPairsSpec(Pairs(hop.cookies), name);
    assert DistinctKeys(m);
    FromDistinctPairs(m);
    assert PutAll([], m) == m;
    MergeGet(PutAll(m, c), m, name);
    MergeGet(m, c, name);
  }

  /* ---------------------------------------------------------------------
     What is read from an answer
     --------------------------------------------------------------------- */

  /** `headerFields.mapValues { joinToString(", ") }.filterKeys { != null }`. */
  function Joined(fields: Fields): (r: Entries<Option<string>, string>)
    ensures forall i :: 0 <= i < |r| ==> r[i].0.Some?
    decreases |fields|
  {
    if |fields| == 0 then []
    else if fields[0].0.None? then Joined(fields[1..])
    else [(fields[0].0, Join(fields[0].1, ", "))] + Joined(fields[1..])
  }

  /** The `headers` of a response: a case-insensitive view of the joined
      fields. */
  function FieldMap(fields: Fields): HeaderMaps.CaseInsensitiveMap<string>
  {
    HeaderMaps.CaseInsensitiveMap(Joined(fields))
  }

  /** The first field (the status line's `null` key aside) whose name equals
      `name` ignoring case answers the lookup, with all its values joined by
      `", "`; the status line is not a header. */
  lemma {:induction false} FieldLookup(fields: Fields, i: nat, name: string)
    requires i < |fields| && HeaderMaps.Matches(fields[i].0, name)
    requires forall j :: 0 <= j < i ==> !HeaderMaps.Matches(fields[j].0, name)
    ensures HeaderMaps.Get(FieldMap(fields), Some(name)) == Some(Join(fields[i].1, ", "))
    ensures !HeaderMaps.ContainsKey(FieldMap(fields), None)
  {
    JoinedFirst(fields, i, name);
    HeaderMaps.GetSpec(FieldMap(fields), name);
    NoNullKey(fields);
  }

  lemma {:induction false} JoinedFirst(fields: Fields, i: nat, name: string)
    requires i < |fields| && HeaderMaps.Matches(fields[i].0, name)
    requires forall j :: 0 <= j < i ==> !HeaderMaps.Matches(fields[j].0, name)
    ensures exists k: nat :: HeaderMaps.FirstMatchAt(Joined(fields), name, k) && Joined(fields)[k].1 == Join(fields[i].1, ", ")
    decreases |fields|
  {
    var rest := fields[1..];
    var r := Joined(fields);
    if i == 0 {
      assert HeaderMaps.FirstMatchAt(r, name, 0);
    } else {
      assert rest[i - 1] == fields[i];
      JoinedFirst(rest, i - 1, name);
      var k: nat :| HeaderMaps.FirstMatchAt(Joined(rest), name, k) && Joined(rest)[k].1 == Join(fields[i].1, ", ");
      if fields[0].0.None? {
        assert HeaderMaps.FirstMatchAt(r, name, k);
      } else {
        assert !HeaderMaps.Matches(fields[0].0, name);
        assert r[k + 1] == Joined(rest)[k];
        forall j | 0 <= j < k + 1 ensures !HeaderMaps.Matches(r[j].0, name) {
          if j > 0 { assert r[j] == Joined(rest)[j - 1]; }
        }
        assert HeaderMaps.FirstMatchAt(r, name, k + 1);
      }
    }
  }

  lemma NoNullKey(fields: Fields)
    ensures !HeaderMaps.ContainsKey(FieldMap(fields), None)
  {
    var r := Joined(fields);
    assert None !in OrderedMaps.KeySet(r);
  }

  /** The stream the content is read through, by `Content-Encoding`. */
  function DecoderFor(fields: Fields): Decoder
  {
    match HeaderMaps.Get(FieldMap(fields), Some(ContentEncodingField))
    case None => Identity
    case Some(v) =>
      if ToLower(v) == "gzip" then Gzip
      else if ToLower(v) == "deflate" then Deflate
      else Identity
  }

  /** The bytes of the answer as the response reads them. */
  function Decoded(p: Platform, ex: Exchange): seq<byte>
  {
    p.inflate(DecoderFor(ex.fields), ex.body)
  }

  /** A gzip or deflate encoding is recognised in any case; no encoding, or
      any other, reads the body as it came. */
  lemma DecoderChoice(fields: Fields, i: nat)
    requires i < |fields| && HeaderMaps.Matches(fields[i].0, ContentEncodingField)
    requires forall j :: 0 <= j < i ==> !HeaderMaps.Matches(fields[j].0, ContentEncodingField)
    ensures ToLower(Join(fields[i].1, ", ")) == "gzip" ==> DecoderFor(fields) == Gzip
    ensures ToLower(Join(fields[i].1, ", ")) == "deflate" ==> DecoderFor(fields) == Deflate
    ensures ToLower(Join(fields[i].1, ", ")) != "gzip" && ToLower(Join(fields[i].1, ", ")) != "deflate" ==>
      DecoderFor(fields) == Identity
  {
    FieldLookup(fields, i, ContentEncodingField);
  }

  lemma NoEncodingIdentity(fields: Fields)
    requires forall j :: 0 <= j < |fields| ==> !HeaderMaps.Matches(fields[j].0, ContentEncodingField)
    ensures DecoderFor(fields) == Identity
  {
    NoMatchAbsent(fields, ContentEncodingField);
  }

  lemma NoMatchAbsent(fields: Fields, name: string)
    requires forall j :: 0 <= j < |fields| ==> !HeaderMaps.Matches(fields[j].0, name)
    ensures HeaderMaps.Get(FieldMap(fields), Some(name)).None?
  {
    JoinedNoMatch(fields, name);
    HeaderMaps.GetSpec(FieldMap(fields), name);
  }

  lemma {:induction false} JoinedNoMatch(fields: Fields, name: string)
    requires forall j :: 0 <= j < |fields| ==> !HeaderMaps.Matches(fields[j].0, name)
    ensures forall i :: 0 <= i < |Joined(fields)| ==> !HeaderMaps.Matches(Joined(fields)[i].0, name)
    decreases |fields|
  {
    if |fields| > 0 {
      var rest := fields[1..];
      assert forall j :: 0 <= j < |rest| ==> rest[j] == fields[j + 1];
      JoinedNoMatch(rest, name);
      if fields[0].0.Some? {
        assert Joined(fields) == [(fields[0].0, Join(fields[0].1, ", "))] + Joined(rest);
      }
    }
  }

  /* ---------------------------------------------------------------------
     The charset of an answer
     --------------------------------------------------------------------- */

  /** Whether a `;` piece of a content type is a `charset` parameter, and
      its value: the piece split at `=`, the name trimmed and lower-cased,
      exactly two parts, the value as it is. */
  function CharsetPiece(piece: string): Option<string>
  {
    var parts := Split(piece, '=');
    if ToLower(Trim(parts[0])) == "charset" && |parts| == 2 then Some(parts[1]) else None
  }

  /** The `charset` parameter of a content type, as written. */
  function CharsetParam(contentType: string): Option<string>
  {
    FirstSome(Split(contentType, ';'), CharsetPiece)
  }

  /** The name `Charset.forName` is asked for: none without a content type,
      else the parameter upper-cased, or `UTF-8` without one. */
  function CharsetName(fields: Fields): Option<string>
  {
    match HeaderMaps.Get(FieldMap(fields), Some(ContentTypeField))
    case None => None
    case Some(ct) => Some(if CharsetParam(ct).Some? then ToUpper(CharsetParam(ct).value) else Utf8.name)
  }

  /** The charset of an answer when none was set: UTF-8 without a content
      type, else the named charset, which fails when the platform knows no
      charset of that name. */
  function AnswerCharset(p: Platform, fields: Fields): Result<Charset>
  {
    match CharsetName(fields)
    case None => Ok(Utf8)
    case Some(name) =>
      match p.charset(name)
      case None => Err(UnsupportedCharset(name))
      case Some(c) => Ok(c)
  }

  /** `type; name=value`, with `name` being `charset` in any case and with
      space around it, has the parameter `value` exactly as written: a
      quoted value keeps its quotes. */
  lemma CharsetParamOf(mediaType: string, name: string, value: string)
    requires ';' !in mediaType && ';' !in name && ';' !in value
    requires '=' !in mediaType && '=' !in name && '=' !in value
    requires ToLower(Trim(name)) == "charset"
    ensures CharsetParam(mediaType + ";" + name + "=" + value) == Some(value)
  {
    var piece := name + "=" + value;
    SplitPair(mediaType, piece, ';');
    SplitPair(name, value, '=');
    assert mediaType + ";" + name + "=" + value == mediaType + [';'] + piece;
    assert CharsetPiece(mediaType).None?;
    assert CharsetPiece(piece) == Some(value);
    FirstSomeAt([mediaType, piece], CharsetPiece, 1);
  }

  /** Two texts without `sep`, joined by it, split back into the two. */
  lemma SplitPair(a: string, b: string, sep: char)
    requires sep !in a && sep !in b
    ensures Split(a + [sep] + b, sep) == [a, b]
  {
    assert a + [sep] + b == a + ([sep] + b);
    SplitPrefix(a, [sep] + b, sep);
    assert ([sep] + b)[1..] == b;
  }

  /** A content type with neither `;` nor `=` names no charset. */
  lemma NoCharsetParam(contentType: string)
    requires ';' !in contentType && '=' !in contentType
    ensures CharsetParam(contentType).None?
  {
    assert Split(contentType, ';') == [contentType];
    assert CharsetPiece(contentType).None?;
  }
}

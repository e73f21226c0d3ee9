/** The first request class, `KHttpGenericRequest`: the same checks and the
    same order of header updates as `GenericRequest`, but applied to the
    caller's own mutable header map, which then is the request's headers;
    the query is appended to the route as text, with no URL parsing; and a
    `FormParameters` body, not any map, sets the form content type. */
module LegacyRequests {
  import opened Wrappers
  import opened Text
  import opened OrderedMaps
  import opened ParameterEncoding
  import opened CookieJars
  import opened Platforms
  import opened Requests

  /** A `MutableMap<String, String>` that the request updates in place. */
  class HeaderMap {
    var entries: Entries<string, string>

    constructor(entries: Entries<string, string>)
      ensures this.entries == entries
    {
      this.entries := entries;
    }

    /** `key in map`. */
    predicate Contains(key: string)
      reads this
    {
      Get(entries, key).Some?
    }

    /** `map[key] = value`. */
    method Set(key: string, value: string)
      modifies this
      ensures entries == Put(old(entries), key, value)
    {
      entries := Put(entries, key, value);
    }

    /** `map += other`: each entry of `other` put in turn. */
    method PutAll(other: Entries<string, string>)
      modifies this
      ensures entries == OrderedMaps.PutAll(old(entries), other)
    {
      var i := 0;
      while i < |other|
        invariant 0 <= i <= |other|
        invariant OrderedMaps.PutAll(entries, other[i..]) == OrderedMaps.PutAll(old(entries), other)
      {
        assert other[i..][1..] == other[i + 1..];
        var (key, value) := other[i];
        Set(key, value);
        i := i + 1;
      }
    }
  }

  /** The cookies given to the request: a `CookieJar`, or any other map of
      names to cookie texts. */
  datatype CookieSource = JarCookies(jar: CookieJar) | MapCookies(entries: Entries<string, string>)

  /** A Kotlin `Int`. */
  newtype Int32 = x: int | -0x8000_0000 <= x < 0x8000_0000

  /** Two's-complement truncation to 32 bits. */
  function Wrap32(x: int): Int32
  {
    ((x + 0x8000_0000) % 0x1_0000_0000 - 0x8000_0000) as Int32
  }

  /** The route with `makeParams(params)` appended. */
  function LegacyRoute(route: string, params: Parameters): string
  {
    route + if |params.entries| == 0 then "" else "?" + QueryText(params.entries)
  }

  /** The late content type of this class: the form type for a
      `FormParameters` body only. */
  function LegacyLateContentType(data: Option<Data>): Option<string>
  {
    if data.Some? && data.value.FormParametersData? then Some(FormType) else None
  }

  /** The checks of `init`: the scheme of the route, then the JSON coercion;
      the data the request keeps. */
  function LegacyOutcome(p: Platform, route: string, params: Parameters, data: Option<Data>,
                         json: Option<Json>): Result<Option<Data>>
  {
    var _ :- CheckScheme(p, LegacyRoute(route, params));
    Coerced(json, data)
  }

  class KHttpGenericRequest {
    const url: string
    const params: Parameters
    const headers: HeaderMap
    const data: Option<Data>
    const json: Option<Json>
    const auth: Option<(string, string)>
    const cookies: Option<CookieSource>
    const timeout: Int32
    const allowRedirects: bool

    /** The field assignments once `init` has passed its checks. */
    constructor Assign(url: string, params: Parameters, headers: HeaderMap, data: Option<Data>,
                       json: Option<Json>, auth: Option<(string, string)>, cookies: Option<CookieSource>,
                       timeout: Int32, allowRedirects: bool)
      ensures this.url == url && this.params == params && this.headers == headers && this.data == data
      ensures this.json == json && this.auth == auth && this.cookies == cookies
      ensures this.timeout == timeout && this.allowRedirects == allowRedirects
    {
      this.url := url;
      this.params := params;
      this.headers := headers;
      this.data := data;
      this.json := json;
      this.auth := auth;
      this.cookies := cookies;
      this.timeout := timeout;
      this.allowRedirects := allowRedirects;
    }

    /** The constructor and its `init` block.  Every check comes before the
        first update, so a refused request leaves the caller's map as it was;
        an accepted one has updated it in place and keeps it as its headers. */
    static method Create(p: Platform, route: string, params: Parameters, headers: HeaderMap, data: Option<Data>,
                         json: Option<Json>, auth: Option<(string, string)>, cookies: Option<CookieSource>,
                         timeout: Int32, allowRedirects: bool) returns (r: Result<KHttpGenericRequest>)
      modifies headers
      ensures r.Ok? <==> LegacyOutcome(p, route, params, data, json).Ok?
      ensures r.Err? ==> r.error == LegacyOutcome(p, route, params, data, json).error
      ensures r.Err? ==> headers.entries == old(headers.entries)
      ensures r.Ok? ==> fresh(r.value) && r.value.headers == headers
      ensures r.Ok? ==> r.value.url == LegacyRoute(route, params)
      ensures r.Ok? ==> r.value.data == LegacyOutcome(p, route, params, data, json).value
      ensures r.Ok? ==> (headers.entries ==
        Headers(old(headers.entries), EarlyContentType(json, data), LegacyLateContentType(r.value.data), auth))
      ensures r.Ok? ==> (r.value.params == params && r.value.json == json && r.value.auth == auth &&
        r.value.cookies == cookies && r.value.timeout == timeout && r.value.allowRedirects == allowRedirects)
    {
      var query := MakeParams(params);
      var url := route + query;
      assert url == LegacyRoute(route, params);
      var scheme := p.uriScheme(url);
      if scheme.Err? {
        return Err(scheme.error);
      }
      if !WebScheme(scheme.value) {
        return Err(IllegalArgument(InvalidSchema));
      }
      assert CheckScheme(p, url) == Ok(());
      var kept: Option<Data>;
      ghost var h0 := headers.entries;
      if json.None? {
        kept := data;
        if data.Some? {
          headers.PutAll(DataHeaders);
        }
      } else {
        var coerced := CoerceToJson(json.value);
        if coerced.Err? {
          return Err(coerced.error);
        }
        kept := Some(TextData(coerced.value));
        headers.PutAll(JsonHeaders);
      }
      assert LegacyOutcome(p, route, params, data, json) == Ok(kept);
      assert headers.entries == OrderedMaps.PutAll(h0, EarlyContentType(json, data));
      LegacyHeaderUpdates(headers, kept, auth);
      var request := new KHttpGenericRequest.Assign(url, params, headers, kept, json, auth, cookies, timeout, allowRedirects);
      r := Ok(request);
    }

    /** The body initializer: `Parameters` are written as `makeParams` without
        its leading `?`, anything else as its `toString()`; which, since a
        query is the parameters' own text, is the data's text in every case. */
    method Body() returns (body: Option<string>)
      ensures data.None? ==> body.None?
      ensures data.Some? ==> body == Some(DataText(data.value))
    {
      if data.None? {
        return None;
      }
      var bodyData := data.value;
      if bodyData.ParametersData? || bodyData.FormParametersData? {
        var text := MakeParams(bodyData.params);
        body := Some(if |text| > 0 then text[1..] else text);
        if |text| == 0 {
          EmptyQuery();
        }
      } else {
        body := Some(DataText(bodyData));
      }
    }

    /** The `Cookie` header initializer: the jar as given, or a jar built from
        the map; none without cookies. */
    function CookieHeader(): (r: Result<Option<string>>)
    {
      LegacyCookieHeader(cookies)
    }

    /** The connect and read timeout: `timeout * 1000` in `Int` arithmetic. */
    function TimeoutMillis(): Int32
    {
      Wrap32(timeout as int * 1000)
    }
  }

  /** The updates of `init` after the early content type, on the caller's
      map: defaults for absent keys, the form type, the authorization. */
  method LegacyHeaderUpdates(headers: HeaderMap, data: Option<Data>, auth: Option<(string, string)>)
    modifies headers
    ensures headers.entries == Headers(old(headers.entries), [], LegacyLateContentType(data), auth)
  {
    ghost var early := headers.entries;
    var i := 0;
    while i < |DefaultHeaders|
      invariant 0 <= i <= |DefaultHeaders|
      invariant AddDefaults(headers.entries, DefaultHeaders[i..]) == AddDefaults(early, DefaultHeaders)
    {
      var (key, value) := DefaultHeaders[i];
      assert DefaultHeaders[i..][1..] == DefaultHeaders[i + 1..];
      if !headers.Contains(key) {
        headers.Set(key, value);
      }
      i := i + 1;
    }
    ghost var defaulted := headers.entries;
    assert defaulted == AddDefaults(OrderedMaps.PutAll(early, []), DefaultHeaders);
    if data.Some? && data.value.FormParametersData? {
      headers.PutAll(FormHeaders);
      PutOne(defaulted, FormHeaders);
    }
    if auth.Some? {
      var (name, value) := auth.value;
      headers.Set(name, value);
    }
  }

  function LegacyCookieHeader(cookies: Option<CookieSource>): (r: Result<Option<string>>)
    ensures cookies.None? ==> r == Ok(None)
    ensures cookies.Some? && cookies.value.JarCookies? ==> r == Ok(Some(HeaderText(cookies.value.jar)))
    ensures cookies.Some? && cookies.value.MapCookies? ==>
      (r.Ok? <==> FromMap(cookies.value.entries).Ok?)
  {
    match cookies
    case None => Ok(None)
    case Some(JarCookies(jar)) => Ok(Some(HeaderText(jar)))
    case Some(MapCookies(m)) =>
      var text :- MapHeader(m);
      Ok(Some(text))
  }

  /** The caller's map, updated in place, ends with the same headers a
      `GenericRequest` would build from a copy, key by key: authorization,
      then the content type, then the caller's value, then the default. */
  lemma LegacyHeadersGet(h0: Entries<string, string>, data: Option<Data>, json: Option<Json>,
                         kept: Option<Data>, auth: Option<(string, string)>, k: string)
    requires Coerced(json, data) == Ok(kept)
    ensures Get(Headers(h0, EarlyContentType(json, data), LegacyLateContentType(kept), auth), k) ==
      if auth.Some? && k == auth.value.0 then Some(auth.value.1)
      else if k == ContentType && kept.Some? && kept.value.FormParametersData? then Some(FormType)
      else if k == ContentType && json.Some? then Some(JsonType)
      else if k == ContentType && data.Some? then Some(TextPlain)
      else if Get(h0, k).Some? then Get(h0, k)
      else Get(DefaultHeaders, k)
  {
    HeadersGet(h0, EarlyContentType(json, data), LegacyLateContentType(kept), auth, k);
  }

  /** A plain map body, unlike `Parameters`, leaves the caller's content
      type to the data default: only `FormParameters` select the form type. */
  lemma PlainMapNotForm(m: Entries<string, string>)
    ensures LegacyLateContentType(Some(MapData(m))).None?
    ensures LateContentType([], Some(MapData(m)), "") == Some(FormType)
  {
  }

  /** Timeouts up to 2147483 seconds are exact; one second more wraps to a
      negative number of milliseconds. */
  lemma TimeoutWraps(t: Int32)
    ensures -2147483 <= t <= 2147483 ==> Wrap32(t as int * 1000) as int == t as int * 1000
    ensures t == 2147484 ==> Wrap32(t as int * 1000) == -2147483296
  {
  }

  /** `{a: b, c: d}` as `Parameters` is written `a=b&c=d`. */
  lemma ParametersBodyExample()
    ensures DataText(ParametersData(Parameters([("a", "b"), ("c", "d")]))) == "a=b&c=d"
  {
    UrlEncoding.EncodeUnreserved("b");
    UrlEncoding.EncodeUnreserved("d");
    var fields := Fields([("a", "b"), ("c", "d")]);
    assert fields[0] == "a=b" && fields[1] == "c=d";
    assert Join(fields[1..], "&") == "c=d";
  }
}

/** `GenericRequest`: the request the library builds from the arguments of a
    verb call.  Its constructor builds the URL (query string appended, host
    made ASCII), rejects schemes other than http and https, replaces the
    data by the JSON text when a JSON value is given, and builds a copy of
    the caller's headers in a fixed order of updates: the data or JSON
    content type, the defaults for absent keys, the upload or form content
    type, the authorization header last. */
module Requests {
  import opened Wrappers
  import opened Text
  import opened OrderedMaps
  import opened ParameterEncoding
  import opened Platforms

  const ContentType := "Content-Type"
  const TextPlain := "text/plain"
  const FormType := "application/x-www-form-urlencoded"
  const JsonType := "application/json"
  const UploadTemplate := "multipart/form-data; boundary=%s"
  const InvalidSchema := "Invalid schema. Only http:// and https:// are supported."

  /** The headers every request carries unless the caller gave that key. */
  const DefaultHeaders: Entries<string, string> :=
    [("Accept", "*/*"), ("Accept-Encoding", "gzip, deflate"), ("User-Agent", "khttp/1.0.0-SNAPSHOT")]
  const DataHeaders: Entries<string, string> := [(ContentType, TextPlain)]
  const FormHeaders: Entries<string, string> := [(ContentType, FormType)]
  const UploadHeaders: Entries<string, string> := [(ContentType, UploadTemplate)]
  const JsonHeaders: Entries<string, string> := [(ContentType, JsonType)]

  /** The runtime kind of the value given as `json`; only the last one has
      no JSON form. */
  datatype JsonKind =
    | JsonObject | JsonArray | MapValue | CollectionValue | IterableValue | ArrayValue
    | OtherValue(simpleName: string)

  /** A JSON value: its kind and the text the JSON library writes for it. */
  datatype Json = Json(kind: JsonKind, serialised: string)

  /** `coerceToJSON`: the JSON text of a value of a JSON-able kind; any other
      value is refused with an `IllegalArgumentException` naming its class. */
  function CoerceToJson(json: Json): (r: Result<string>)
    ensures r.Ok? <==> !json.kind.OtherValue?
    ensures r.Ok? ==> r.value == json.serialised
    ensures r.Err? ==> r.error == IllegalArgument("Could not coerce " + json.kind.simpleName + " to JSON.")
  {
    match json.kind
    case OtherValue(name) => Err(IllegalArgument("Could not coerce " + name + " to JSON."))
    case _ => Ok(json.serialised)
  }

  /** The request body as given: text, a plain map, `Parameters` or its
      subclass `FormParameters`. */
  datatype Data =
    | TextData(text: string)
    | MapData(entries: Entries<string, string>)
    | ParametersData(params: Parameters)
    | FormParametersData(params: Parameters)

  /** `data is Map<*, *>`: `Parameters` are maps too. */
  predicate IsMap(d: Data)
  {
    !d.TextData?
  }

  /** `data.toString()`. */
  function DataText(d: Data): string
  {
    match d
    case TextData(t) => t
    case MapData(m) => MapText(m)
    case ParametersData(p) => QueryText(p.entries)
    case FormParametersData(p) => QueryText(p.entries)
  }

  /** A file to upload; only whether there are any matters here. */
  datatype FileLike = FileLike(fieldName: string, name: string, contents: seq<byte>)

  /** The constructor's arguments. */
  datatype Arguments = Arguments(
    httpMethod: string,
    url: string,
    params: Entries<string, string>,
    headers: Entries<string, string>,
    data: Option<Data>,
    json: Option<Json>,
    auth: Option<(string, string)>,
    cookies: Option<Entries<string, string>>,
    timeout: real,
    allowRedirects: Option<bool>,
    stream: bool,
    files: seq<FileLike>)

  datatype GenericRequest = GenericRequest(
    httpMethod: string,
    url: string,
    params: Entries<string, string>,
    headers: Entries<string, string>,
    data: Option<Data>,
    json: Option<Json>,
    auth: Option<(string, string)>,
    cookies: Option<Entries<string, string>>,
    timeout: real,
    allowRedirects: bool,
    stream: bool,
    files: seq<FileLike>)

  /** `allowRedirects ?: (method != "HEAD")`. */
  function AllowRedirects(httpMethod: string, given: Option<bool>): (r: bool)
    ensures given.Some? ==> r == given.value
    ensures given.None? ==> (r <==> httpMethod != "HEAD")
  {
    given.GetOr(httpMethod != "HEAD")
  }

  /** The query the route is given: `?` and the parameters, or nothing. */
  function Query(params: Entries<string, string>): string
  {
    if |params| > 0 then "?" + QueryText(OfMap(params).entries) else ""
  }

  /** `makeRoute`: the URL of route and query, host made ASCII. */
  function Route(p: Platform, route: string, params: Entries<string, string>): Result<string>
  {
    match p.url(route + Query(params))
    case None => Err(MalformedUrl)
    case Some(url) => Ok(url)
  }

  predicate WebScheme(scheme: Option<string>)
  {
    scheme == Some("http") || scheme == Some("https")
  }

  /** The scheme check of the constructor. */
  function CheckScheme(p: Platform, url: string): Result<()>
  {
    var scheme :- p.uriScheme(url);
    if WebScheme(scheme) then Ok(()) else Err(IllegalArgument(InvalidSchema))
  }

  /** The data the request keeps: as given without JSON, else the JSON text. */
  function Coerced(json: Option<Json>, data: Option<Data>): Result<Option<Data>>
  {
    if json.None? then Ok(data)
    else
      var text :- CoerceToJson(json.value);
      Ok(Some(TextData(text)))
  }

  /** `UUID.toString().replace("-", "")`. */
  function WithoutDashes(s: string): (r: string)
    ensures '-' !in r
  {
    if |s| == 0 then ""
    else if s[0] == '-' then WithoutDashes(s[1..])
    else [s[0]] + WithoutDashes(s[1..])
  }

  /** `String.format(template, arg)` for a template whose one format
      specifier is a trailing `%s`. */
  function Format(template: string, arg: string): string
  {
    if |template| >= 2 && template[|template| - 2..] == "%s" then template[..|template| - 2] + arg
    else template
  }

  /** The multipart content type with its boundary. */
  function UploadType(uuid: string): string
  {
    "multipart/form-data; boundary=" + WithoutDashes(uuid)
  }

  lemma UploadFormat(uuid: string)
    ensures Format(UploadTemplate, WithoutDashes(uuid)) == UploadType(uuid)
  {
  }

  /** `key !in headers` then `headers[key] = value`, for each default. */
  function AddDefaults(h: Entries<string, string>, defaults: Entries<string, string>): Entries<string, string>
    decreases |defaults|
  {
    if |defaults| == 0 then h
    else
      var (key, value) := defaults[0];
      AddDefaults(if Get(h, key).None? then Put(h, key, value) else h, defaults[1..])
  }

  /** The content type set before the defaults: JSON, else data, else none. */
  function EarlyContentType(json: Option<Json>, data: Option<Data>): Entries<string, string>
  {
    if json.Some? then JsonHeaders else if data.Some? then DataHeaders else []
  }

  /** The order of updates both request classes apply to the headers: the
      early content type, the defaults, the late content type, the
      authorization header. */
  function Headers(h0: Entries<string, string>, early: Entries<string, string>, late: Option<string>,
                   auth: Option<(string, string)>): Entries<string, string>
  {
    var h1 := PutAll(h0, early);
    var h2 := AddDefaults(h1, DefaultHeaders);
    var h3 := if late.Some? then Put(h2, ContentType, late.value) else h2;
    if auth.Some? then Put(h3, auth.value.0, auth.value.1) else h3
  }

  /** The late content type: upload when there are files, else form for map
      data. */
  function LateContentType(files: seq<FileLike>, data: Option<Data>, uuid: string): Option<string>
  {
    if |files| > 0 then Some(UploadType(uuid))
    else if data.Some? && IsMap(data.value) then Some(FormType)
    else None
  }

  /** The request the constructor builds, or the exception it throws. */
  function Built(p: Platform, a: Arguments, uuid: string): Result<GenericRequest>
  {
    var url :- Route(p, a.url, a.params);
    var _ :- CheckScheme(p, url);
    var data :- Coerced(a.json, a.data);
    Ok(Assembled(a, url, data, uuid))
  }

  /** The request of a URL that passed the checks and of the kept data. */
  function Assembled(a: Arguments, url: string, data: Option<Data>, uuid: string): GenericRequest
  {
    var headers := Headers(FromPairs(a.headers), EarlyContentType(a.json, a.data),
                           LateContentType(a.files, data, uuid), a.auth);
    GenericRequest(a.httpMethod, url, a.params, headers, data, a.json, a.auth, a.cookies,
                   a.timeout, AllowRedirects(a.httpMethod, a.allowRedirects), a.stream, a.files)
  }

  /** The constructor and its `init` block: the URL, the scheme check, then
      the updates of a private copy of the headers.  `uuid` is the random
      UUID drawn for an upload. */
  method Build(p: Platform, a: Arguments, uuid: string) returns (r: Result<GenericRequest>)
    ensures r == Built(p, a, uuid)
  {
    var route := a.url;
    if |a.params| > 0 {
      var query := ToString(OfMap(a.params));
      route := route + "?" + query;
    }
    assert route == a.url + Query(a.params);
    var parsed := p.url(route);
    if parsed.None? {
      assert Route(p, a.url, a.params) == Err(MalformedUrl);
      return Err(MalformedUrl);
    }
    var url := parsed.value;
    assert Route(p, a.url, a.params) == Ok(url);
    var scheme := p.uriScheme(url);
    if scheme.Err? {
      assert CheckScheme(p, url) == Err(scheme.error);
      return Err(scheme.error);
    }
    if !WebScheme(scheme.value) {
      assert CheckScheme(p, url) == Err(IllegalArgument(InvalidSchema));
      return Err(IllegalArgument(InvalidSchema));
    }
    assert CheckScheme(p, url) == Ok(());
    var headers := FromPairs(a.headers);
    var data: Option<Data>;
    if a.json.None? {
      data := a.data;
      if a.data.Some? {
        headers := PutAll(headers, DataHeaders);
      }
    } else {
      var coerced := CoerceToJson(a.json.value);
      if coerced.Err? {
        assert Coerced(a.json, a.data) == Err(coerced.error);
        return Err(coerced.error);
      }
      data := Some(TextData(coerced.value));
      headers := PutAll(headers, JsonHeaders);
    }
    assert Coerced(a.json, a.data) == Ok(data);
    assert Built(p, a, uuid) == Ok(Assembled(a, url, data, uuid));
    headers := HeaderUpdates(headers, a.files, data, uuid, a.auth);
    r := Ok(GenericRequest(a.httpMethod, url, a.params, headers, data, a.json, a.auth, a.cookies,
                           a.timeout, AllowRedirects(a.httpMethod, a.allowRedirects), a.stream, a.files));
  }

  /** The updates of `init` after the early content type, on the private copy
      of the headers: the defaults loop, the upload or form content type, the
      authorization header. */
  method HeaderUpdates(early: Entries<string, string>, files: seq<FileLike>, data: Option<Data>, uuid: string,
                       auth: Option<(string, string)>) returns (headers: Entries<string, string>)
    ensures headers == Headers(early, [], LateContentType(files, data, uuid), auth)
  {
    headers := early;
    var i := 0;
    while i < |DefaultHeaders|
      invariant 0 <= i <= |DefaultHeaders|
      invariant AddDefaults(headers, DefaultHeaders[i..]) == AddDefaults(early, DefaultHeaders)
    {
      var (key, value) := DefaultHeaders[i];
      assert DefaultHeaders[i..][1..] == DefaultHeaders[i + 1..];
      if Get(headers, key).None? {
        headers := Put(headers, key, value);
      }
      i := i + 1;
    }
    ghost var defaulted := headers;
    ghost var late := LateContentType(files, data, uuid);
    assert defaulted == AddDefaults(PutAll(early, []), DefaultHeaders);
    if |files| > 0 {
      headers := PutAll(headers, UploadHeaders);
      PutOne(defaulted, UploadHeaders);
      PutGet(defaulted, ContentType, UploadTemplate);
      var template := Get(headers, ContentType).value;
      UploadFormat(uuid);
      headers := Put(headers, ContentType, Format(template, WithoutDashes(uuid)));
      PutPut(defaulted, ContentType, UploadTemplate, UploadType(uuid));
      assert headers == Put(defaulted, ContentType, UploadType(uuid));
    } else if data.Some? && IsMap(data.value) {
      headers := PutAll(headers, FormHeaders);
      PutOne(defaulted, FormHeaders);
      assert headers == Put(defaulted, ContentType, FormType);
    }
    assert headers == if late.Some? then Put(defaulted, ContentType, late.value) else defaulted;
    if auth.Some? {
      var (name, value) := auth.value;
      headers := Put(headers, name, value);
    }
  }

  /** Putting a one-entry map is one put. */
  lemma PutOne(h: Entries<string, string>, entries: Entries<string, string>)
    requires |entries| == 1
    ensures PutAll(h, entries) == Put(h, entries[0].0, entries[0].1)
  {
    assert entries[1..] == [];
  }

  /** A default only fills a key that is absent. */
  lemma {:induction false} AddDefaultsGet(h: Entries<string, string>, defaults: Entries<string, string>, k: string)
    ensures Get(AddDefaults(h, defaults), k) == if Get(h, k).Some? then Get(h, k) else Get(defaults, k)
    decreases |defaults|
  {
    if |defaults| > 0 {
      var (key, value) := defaults[0];
      var h' := if Get(h, key).None? then Put(h, key, value) else h;
      PutGet(h, key, value);
      AddDefaultsGet(h', defaults[1..], k);
    }
  }

  /** Defaults never move a key and keep keys distinct. */
  lemma {:induction false} AddDefaultsKeys(h: Entries<string, string>, defaults: Entries<string, string>)
    ensures KeysPrefix(h, AddDefaults(h, defaults))
    ensures DistinctKeys(h) ==> DistinctKeys(AddDefaults(h, defaults))
    decreases |defaults|
  {
    if |defaults| > 0 {
      var (key, value) := defaults[0];
      var h' := if Get(h, key).None? then Put(h, key, value) else h;
      PutKeysPrefix(h, key, value);
      PutGet(h, key, value);
      AddDefaultsKeys(h', defaults[1..]);
    }
  }

  /** The precedence of the header updates, key by key: the authorization
      header wins, then the late and the early content type, then the
      caller's value, then the default. */
  lemma HeadersGet(h0: Entries<string, string>, early: Entries<string, string>, late: Option<string>,
                   auth: Option<(string, string)>, k: string)
    requires early == [] || early == DataHeaders || early == JsonHeaders
    ensures Get(Headers(h0, early, late, auth), k) ==
      if auth.Some? && k == auth.value.0 then Some(auth.value.1)
      else if k == ContentType && late.Some? then late
      else if k == ContentType && early != [] then Some(early[0].1)
      else if Get(h0, k).Some? then Get(h0, k)
      else Get(DefaultHeaders, k)
  {
    var h2 := AddDefaults(PutAll(h0, early), DefaultHeaders);
    DefaultedGet(h0, early, k);
    LateAuthGet(h2, late, auth, k);
  }

  /** Before the late updates: the early content type, then the caller's
      value, then the default. */
  lemma DefaultedGet(h0: Entries<string, string>, early: Entries<string, string>, k: string)
    requires early == [] || early == DataHeaders || early == JsonHeaders
    ensures Get(AddDefaults(PutAll(h0, early), DefaultHeaders), k) ==
      if k == ContentType && early != [] then Some(early[0].1)
      else if Get(h0, k).Some? then Get(h0, k)
      else Get(DefaultHeaders, k)
  {
    var h1 := PutAll(h0, early);
    PutAllGet(h0, early, k);
    AddDefaultsGet(h1, DefaultHeaders, k);
  }

  /** The late content type and the authorization header override whatever
      the headers held. */
  lemma LateAuthGet(h2: Entries<string, string>, late: Option<string>, auth: Option<(string, string)>, k: string)
    ensures var h3 := if late.Some? then Put(h2, ContentType, late.value) else h2;
      Get(if auth.Some? then Put(h3, auth.value.0, auth.value.1) else h3, k) ==
      if auth.Some? && k == auth.value.0 then Some(auth.value.1)
      else if k == ContentType && late.Some? then late
      else Get(h2, k)
  {
    var h3 := if late.Some? then Put(h2, ContentType, late.value) else h2;
    if late.Some? {
      PutGet(h2, ContentType, late.value);
    }
    if auth.Some? {
      PutGet(h3, auth.value.0, auth.value.1);
    }
  }

  /** The updates keep the keys of the headers they start from in place and
      keep keys distinct. */
  lemma HeadersKeys(h0: Entries<string, string>, early: Entries<string, string>, late: Option<string>,
                    auth: Option<(string, string)>)
    requires |early| <= 1
    ensures KeysPrefix(h0, Headers(h0, early, late, auth))
    ensures DistinctKeys(h0) ==> DistinctKeys(Headers(h0, early, late, auth))
  {
    var h1 := PutAll(h0, early);
    if |early| == 1 {
      PutKeysPrefix(h0, early[0].0, early[0].1);
      PutGet(h0, early[0].0, early[0].1);
      PutOne(h0, early);
    }
    var h2 := AddDefaults(h1, DefaultHeaders);
    AddDefaultsKeys(h1, DefaultHeaders);
    LateAuthKeys(h2, late, auth);
  }

  /** The late content type and the authorization header keep keys in place
      and distinct. */
  lemma LateAuthKeys(h2: Entries<string, string>, late: Option<string>, auth: Option<(string, string)>)
    ensures var h3 := if late.Some? then Put(h2, ContentType, late.value) else h2;
      var h4 := if auth.Some? then Put(h3, auth.value.0, auth.value.1) else h3;
      KeysPrefix(h2, h4) && (DistinctKeys(h2) ==> DistinctKeys(h4))
  {
    var h3 := if late.Some? then Put(h2, ContentType, late.value) else h2;
    if late.Some? {
      PutKeysPrefix(h2, ContentType, late.value);
      PutGet(h2, ContentType, late.value);
    }
    if auth.Some? {
      PutKeysPrefix(h3, auth.value.0, auth.value.1);
      PutGet(h3, auth.value.0, auth.value.1);
    }
  }

  /** The content type a request ends up with, in order of precedence:
      upload when there are files, JSON, form for map data, plain text for
      other data, else whatever the caller gave. */
  function ContentTypeChoice(a: Arguments, uuid: string): Option<string>
  {
    if |a.files| > 0 then Some(UploadType(uuid))
    else if a.json.Some? then Some(JsonType)
    else if a.data.Some? && IsMap(a.data.value) then Some(FormType)
    else if a.data.Some? then Some(TextPlain)
    else None
  }

  /** Construction fails exactly when the URL is malformed, its scheme is not
      http or https, or the JSON value has no JSON form, and reports the
      first of these. */
  lemma BuiltOutcome(p: Platform, a: Arguments, uuid: string)
    ensures p.url(a.url + Query(a.params)).None? ==> Built(p, a, uuid) == Err(MalformedUrl)
    ensures (p.url(a.url + Query(a.params)).Some? && p.uriScheme(p.url(a.url + Query(a.params)).value).Ok? &&
             !WebScheme(p.uriScheme(p.url(a.url + Query(a.params)).value).value)) ==>
      Built(p, a, uuid) == Err(IllegalArgument(InvalidSchema))
    ensures Built(p, a, uuid).Ok? <==>
      p.url(a.url + Query(a.params)).Some? &&
      p.uriScheme(p.url(a.url + Query(a.params)).value).Ok? &&
      WebScheme(p.uriScheme(p.url(a.url + Query(a.params)).value).value) &&
      !(a.json.Some? && a.json.value.kind.OtherValue?)
  {
  }

  /** A built request has the URL of route and query, the data as given or
      replaced by the JSON text, the redirect default resolved, and every
      other argument as given. */
  lemma BuiltFields(p: Platform, a: Arguments, uuid: string)
    requires Built(p, a, uuid).Ok?
    ensures var r := Built(p, a, uuid).value;
      Some(r.url) == p.url(a.url + Query(a.params)) &&
      r.data == (if a.json.None? then a.data else Some(TextData(a.json.value.serialised))) &&
      (r.allowRedirects <==> if a.allowRedirects.Some? then a.allowRedirects.value else a.httpMethod != "HEAD") &&
      r.httpMethod == a.httpMethod && r.params == a.params && r.json == a.json && r.auth == a.auth &&
      r.cookies == a.cookies && r.timeout == a.timeout && r.stream == a.stream && r.files == a.files
  {
  }

  /** Every header of a built request, key by key: the authorization header
      wins, then the content type chosen by files, JSON and data, then the
      caller's last value for the key, then the default. */
  lemma BuiltHeaders(p: Platform, a: Arguments, uuid: string, k: string)
    requires Built(p, a, uuid).Ok?
    ensures Get(Built(p, a, uuid).value.headers, k) ==
      if a.auth.Some? && k == a.auth.value.0 then Some(a.auth.value.1)
      else if k == ContentType && ContentTypeChoice(a, uuid).Some? then ContentTypeChoice(a, uuid)
      else if LastValue(a.headers, k).Some? then LastValue(a.headers, k)
      else Get(DefaultHeaders, k)
  {
    var url := Route(p, a.url, a.params).value;
    var data := Coerced(a.json, a.data).value;
    assert Built(p, a, uuid).value == Assembled(a, url, data, uuid);
    var early := EarlyContentType(a.json, a.data);
    var late := LateContentType(a.files, data, uuid);
    HeadersGet(FromPairs(a.headers), early, late, a.auth, k);
    FromPairsSpec(a.headers, k);
    ContentTypeAgrees(a, data, uuid);
  }

  /** The early and the late content type together make the choice. */
  lemma ContentTypeAgrees(a: Arguments, data: Option<Data>, uuid: string)
    requires Coerced(a.json, a.data) == Ok(data)
    ensures var early := EarlyContentType(a.json, a.data);
      var late := LateContentType(a.files, data, uuid);
      (if late.Some? then late else if early != [] then Some(early[0].1) else None) == ContentTypeChoice(a, uuid)
  {
  }

  /** The caller's headers keep their order at the head of the built ones,
      and keys stay distinct. */
  lemma BuiltKeepsOrder(p: Platform, a: Arguments, uuid: string)
    requires Built(p, a, uuid).Ok? && DistinctKeys(a.headers)
    ensures KeysPrefix(a.headers, Built(p, a, uuid).value.headers)
    ensures DistinctKeys(Built(p, a, uuid).value.headers)
  {
    FromDistinctPairs(a.headers);
    var data := Coerced(a.json, a.data).value;
    HeadersKeys(a.headers, EarlyContentType(a.json, a.data), LateContentType(a.files, data, uuid), a.auth);
  }

  /** A `HEAD` request does not follow redirects unless asked to; any other
      method does unless told not to. */
  lemma HeadDefault(p: Platform, a: Arguments, uuid: string)
    requires Built(p, a, uuid).Ok? && a.allowRedirects.None?
    ensures !Built(p, a, uuid).value.allowRedirects <==> a.httpMethod == "HEAD"
  {
  }
}

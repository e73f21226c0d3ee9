# khttp in Dafny

A model of the core of khttp, a Kotlin HTTP client library in the style of
Python's requests, and proofs about it. The model covers:

- **Cookies and cookie jars.**
  - `Cookie` parses `key=value; name=val` texts and writes the value back with its attributes.
  - `CookieJar` is a name-to-value map built from cookies or from a raw map, and it is written as a `Cookie` request header.
- **`CaseInsensitiveMap`.** A read-only view whose lookups ignore case while the stored keys stay as they are.
- **`Parameters`.** Query and form encoding with `URLEncoder.encode`, modelled concretely by the JDK rule:
  - letters, digits and `.-*_` pass unchanged;
  - a space becomes `+`;
  - every other character becomes `%XX` for each of its UTF-8 bytes.
- **Request construction.**
  - `GenericRequest` and the older `KHttpGenericRequest` build the URL, check the scheme, default `allowRedirects`, and apply the header-precedence sequence.
  - The older request does this on the caller's own header map, in place.
- **The response engine.**
  - `GenericResponse` connects lazily and follows 301, 302 and 303 answers. It creates one response per hop, records the hops in the first response's history, forwards cookies between hops, and caches its connection, stream, content and encoding.
  - `lineIterator` and `contentIterator` read the body.
  - `request()` in `KHttp.kt` returns the last hop's response, and the verb functions call it.
  - Two earlier revisions of the engine are modelled beside it.

## Layout

- `wrappers.dfy` (`Wrappers`): `Option`, `Result` and `Failure`, the exceptions that reach a caller.
- `text.dfy` (`Text`): the Kotlin string functions the core relies on: `split`, `joinToString`, `trim`, case conversion and `Int.toString`.
- `ordered_maps.dfy` (`OrderedMaps`): Kotlin's insertion-ordered maps, as sequences of entries with distinct keys.
- `cookie.dfy` (`Cookies`, `CookieRoundTrip`): `Cookie`.
- `cookie_jar.dfy` (`CookieJars`): `CookieJar`.
- `header_map.dfy` (`HeaderMaps`): `CaseInsensitiveMap`.
- `url_encoding.dfy` (`UrlEncoding`): `URLEncoder.encode` with UTF-8, and its inverse.
- `parameters.dfy` (`ParameterEncoding`): `Parameters`, and `makeParams` of the older request.
- `platform.dfy` (`Platforms`): the services the library gets from the JVM, as the fields of a `Platform` value:
  - the transport;
  - URL parsing and IDN conversion;
  - `URI.resolve`;
  - `Charset.forName` and decoding;
  - gzip and inflate.
- `requests.dfy` (`Requests`): `GenericRequest`.
- `legacy_request.dfy` (`LegacyRequests`): `KHttpGenericRequest`, with the caller's header map as an object that construction mutates.
- `redirects.dfy` (`Redirects`): the pieces of one exchange and the redirect chain as a function:
  - the wire request the initializers prepare;
  - the `Set-Cookie` jar;
  - the rebuilt next request;
  - the `headers` view;
  - the decoder and the charset.
- `responses.dfy` (`Responses`): the `GenericResponse` class. Its `revision` field selects the current behaviour or that of the earlier `khttp.responses.KHttpGenericResponse`.
- `iterators.dfy` (`Iterators`): the content and line iterators, as classes.
- `khttp.dfy` (`Khttp`): `request()` and the verb functions.
- `earliest_response.dfy` (`EarliestResponses`): the earliest `me.kyleclemens.khttp.responses.KHttpGenericResponse`. It follows redirects recursively and keeps no history.

The stateful getters are methods on classes whose fields are the source's
cached fields (`_connection`, `_raw`, `_contents`, `_encoding`, `_cookies`,
`_history`). Each getter is proved against a specification function of the
inputs: for the response engine, `Redirects.Chain`, the sequence of hops
the redirect chain visits. The properties are then proved about those
functions.

Where the description of the library and the code disagree, the model
follows the code:

- An attribute piece without `=` makes `Cookie` parsing fail with an index
  error. The code has no flag attributes.
- `valueWithAttributes` joins attributes with `, `, not `; `.
- `contentIterator` pads a short last chunk with zeros, and for a buffered
  body its `hasNext` asks the raw stream that `content` has already drained
  and closed. Both are recorded under Findings. The as-written behaviour is
  modelled by `Iterators.PaddedChunk` and `Iterators.AsWrittenHasNext`, while
  the iterator classes model the corrected behaviour.

## Model

| member | source | states |
|---|---|---|
| Text.Split | src/main/kotlin/me/kyleclemens/khttp/structures/cookie/Cookie.kt:15 | `split(";")` gives at least one piece, no piece holds the separator, and a text without the separator is its own single piece |
| Text.JoinSplit | src/main/kotlin/me/kyleclemens/khttp/structures/cookie/Cookie.kt:15 | joining the pieces of a split with the separator gives back the text |
| Text.SplitJoin | src/main/kotlin/me/kyleclemens/khttp/structures/cookie/CookieJar.kt:25 | splitting a join of separator-free pieces gives back the pieces |
| Text.SplitCount | src/main/kotlin/me/kyleclemens/khttp/structures/parameters/Parameters.kt:18 | a split has one more piece than the text has separators |
| Text.SplitFirst | src/main/kotlin/me/kyleclemens/khttp/structures/cookie/Cookie.kt:12 | `split("=", limit = 2)` fails exactly when there is no `=`, and otherwise cuts the text at its first `=` |
| Text.SplitHead | src/main/kotlin/me/kyleclemens/khttp/structures/cookie/Cookie.kt:12-16 | the first piece of a full split is the text before the first separator, and the rest is the split of what follows it |
| Text.TrimSpec | src/main/kotlin/me/kyleclemens/khttp/structures/cookie/Cookie.kt:14 | whitespace being what `Char.isWhitespace` counts among ASCII characters (U+001C to U+001F included), `trim()` gives a trimmed infix of the text with only whitespace cut on either side, and leaves a trimmed text unchanged |
| Text.TrimPadded | src/main/kotlin/me/kyleclemens/khttp/structures/cookie/CookieJar.kt:13 | trimming whitespace padding around a trimmed text gives that text |
| Text.TrimKeeps | src/main/kotlin/me/kyleclemens/khttp/structures/cookie/Cookie.kt:14 | trimming neither adds nor removes a non-whitespace character |
| Text.ToLower | src/main/kotlin/me/kyleclemens/khttp/structures/maps/CaseInsensitiveMap.kt:12 | `toLowerCase()` maps each character and keeps the length |
| Text.EqualsIgnoreCaseLower | src/main/kotlin/me/kyleclemens/khttp/structures/maps/CaseInsensitiveMap.kt:12 | comparing with `equals(ignoreCase = true)` against an already lower-cased key gives the same answer as against the key |
| Text.NatTextDigits | src/main/kotlin/khttp/responses/GenericResponse.kt:279 | the decimal text of a natural number is non-empty, all digits, has no leading zero and reads back as the number |
| Text.IntTextRoundTrip | src/main/kotlin/khttp/responses/GenericResponse.kt:279 | the decimal text of any status code parses back to it |
| OrderedMaps.Get | src/main/kotlin/me/kyleclemens/khttp/structures/cookie/CookieJar.kt:8 | a map lookup finds a value exactly for the keys present, and the entry it finds is in the map |
| OrderedMaps.PutGet | src/main/kotlin/khttp/requests/GenericRequest.kt:79 | `m[k] = v` makes `k` map to `v`, leaves every other key alone and keeps keys distinct |
| OrderedMaps.PutShape | src/main/kotlin/khttp/requests/GenericRequest.kt:79 | overwriting a present key keeps the order of the keys; a new key is appended at the end |
| OrderedMaps.PutPut | src/main/kotlin/khttp/requests/GenericRequest.kt:91 | writing the same key twice keeps only the second value |
| OrderedMaps.PutAllGet | src/main/kotlin/khttp/responses/GenericResponse.kt:136 | after `putAll` a key maps to the last value the added entries give it, else to its old value |
| OrderedMaps.PutAllKeys | src/main/kotlin/khttp/responses/GenericResponse.kt:106 | `putAll` gives the union of the key sets |
| OrderedMaps.PutAllFresh | src/main/kotlin/khttp/responses/GenericResponse.kt:136 | `putAll` of fresh, distinct keys appends them in order |
| OrderedMaps.FromPairsSpec | src/main/kotlin/me/kyleclemens/khttp/structures/parameters/Parameters.kt:10 | `mapOf(pairs)` looks up the last value given for a key, has distinct keys, and has one entry per distinct key |
| OrderedMaps.FromDistinctPairs | src/main/kotlin/me/kyleclemens/khttp/structures/parameters/Parameters.kt:12 | `mapOf` over pairs with distinct keys keeps them as they are |
| OrderedMaps.LastValueAt | src/main/kotlin/me/kyleclemens/khttp/structures/parameters/Parameters.kt:10 | the value of a key is the one from its last pair |
| OrderedMaps.DistinctSize | src/main/kotlin/me/kyleclemens/khttp/structures/cookie/CookieJar.kt:8 | a map's size is its number of distinct keys |
| Cookies.Copy | src/main/kotlin/me/kyleclemens/khttp/structures/cookie/Cookie.kt:27 | the copy constructor gives a cookie equal to the original in key, value and attributes |
| Cookies.ParseAttribute | src/main/kotlin/me/kyleclemens/khttp/structures/cookie/Cookie.kt:18 | an attribute piece without `=` fails with an index error; otherwise its name is the trimmed text before the first `=` and its value the trimmed text up to the second `=` |
| Cookies.AttributePairs | src/main/kotlin/me/kyleclemens/khttp/structures/cookie/Cookie.kt:17-19 | the attribute pieces parse exactly when every piece holds `=`, one pair per piece in order |
| Cookies.ParseSpec | src/main/kotlin/me/kyleclemens/khttp/structures/cookie/Cookie.kt:11-21 | parsing fails with `is not a cookie.` exactly when there is no `=`; the key is the trimmed text before the first `=`, the value the trimmed text up to the next `;`; no `;` gives no attributes; a later piece without `=` fails |
| Cookies.AttributeTexts | src/main/kotlin/me/kyleclemens/khttp/structures/cookie/Cookie.kt:34 | each attribute is written as `name=value`, in attribute order |
| Cookies.ValueWithAttributes | src/main/kotlin/me/kyleclemens/khttp/structures/cookie/Cookie.kt:29-35 | without attributes the text is the value; with attributes it is the value, `; `, and the `name=value` texts joined by `, ` |
| CookieRoundTrip.OneAttributeRoundTrip | src/main/kotlin/me/kyleclemens/khttp/structures/cookie/Cookie.kt:11-34 | parsing `key=` plus the written value of a cookie with one attribute gives the cookie back |
| CookieRoundTrip.OneAttributeText | src/main/kotlin/me/kyleclemens/khttp/structures/cookie/Cookie.kt:34 | one attribute is written as `value; name=val` |
| CookieRoundTrip.SingleAttributeAgrees | src/main/kotlin/me/kyleclemens/khttp/structures/cookie/Cookie.kt:34 | with one attribute the written form agrees with the `; `-joined form |
| CookieRoundTrip.AsWrittenPieces | src/main/kotlin/me/kyleclemens/khttp/structures/cookie/Cookie.kt:34 | the written value of a well-formed cookie with attributes splits on `;` into the value and a single attribute piece |
| CookieRoundTrip.AsWrittenParsed | src/main/kotlin/me/kyleclemens/khttp/structures/cookie/Cookie.kt:11-34 | parsing `key=` plus the written value gives the key, the value and whatever that single piece parses to |
| CookieRoundTrip.AsWrittenLosesAttributes | src/main/kotlin/me/kyleclemens/khttp/structures/cookie/Cookie.kt:34 | with two or more attributes, parsing `key=` plus the written value succeeds with one attribute, so it does not give the cookie back |
| CookieRoundTrip.IntendedPieces | src/main/kotlin/me/kyleclemens/khttp/structures/cookie/Cookie.kt:34 | the `; `-joined form splits into the value and one spaced piece per attribute |
| CookieRoundTrip.IntendedRoundTrip | src/main/kotlin/me/kyleclemens/khttp/structures/cookie/Cookie.kt:11-34 | parsing `key=` plus the `; `-joined form gives any well-formed cookie back |
| CookieRoundTrip.ParseAt | src/main/kotlin/me/kyleclemens/khttp/structures/cookie/Cookie.kt:12-20 | parsing `key=rest` is the trimmed key, the trimmed first `;` piece, and the parsed attribute pieces |
| CookieJars.Pairs | src/main/kotlin/me/kyleclemens/khttp/structures/cookie/CookieJar.kt:8 | the jar's map is built from each cookie's key and plain value, in order |
| CookieJars.AsMapSpec | src/main/kotlin/me/kyleclemens/khttp/structures/cookie/CookieJar.kt:8 | a key maps to the value of its last cookie; keys are distinct; the size is the number of distinct names |
| CookieJars.AsMapAbsent | src/main/kotlin/me/kyleclemens/khttp/structures/cookie/CookieJar.kt:8 | a name no cookie carries is absent from the jar |
| CookieJars.NamesAreKeys | src/main/kotlin/me/kyleclemens/khttp/structures/cookie/CookieJar.kt:8 | the jar's keys are exactly the cookie names |
| CookieJars.TwoCookies | src/main/kotlin/me/kyleclemens/khttp/structures/cookie/CookieJar.kt:8 | two cookies with different names make a jar of size 2 |
| CookieJars.HeaderPairs | src/main/kotlin/me/kyleclemens/khttp/structures/cookie/CookieJar.kt:25 | each cookie is written as `key=value`, attributes omitted, in cookie order |
| CookieJars.EmptyHeader | src/main/kotlin/me/kyleclemens/khttp/structures/cookie/CookieJar.kt:25 | an empty jar is written as the empty text |
| CookieJars.DuplicateWrittenTwice | src/main/kotlin/me/kyleclemens/khttp/structures/cookie/CookieJar.kt:8-25 | a duplicated name is written twice in the header while the map holds it once, with the later value |
| CookieJars.HeaderRoundTrip | src/main/kotlin/me/kyleclemens/khttp/structures/cookie/CookieJar.kt:25 | splitting the header on `;` gives one piece per cookie, and each trimmed piece parses back to its cookie |
| CookieJars.MapHeaderRoundTrip | src/main/kotlin/me/kyleclemens/khttp/structures/cookie/CookieJar.kt:23-25 | a jar built from a map of plain tokens writes a header whose pieces parse back to the map's entries |
| CookieJars.ToCookieArray | src/main/kotlin/me/kyleclemens/khttp/structures/cookie/CookieJar.kt:11-20 | the map constructor succeeds exactly when every entry converts, and then gives one cookie per entry in map order |
| CookieJars.CookieOfSpec | src/main/kotlin/me/kyleclemens/khttp/structures/cookie/CookieJar.kt:12-18 | an entry becomes a cookie named by its key whose value is the trimmed text before the first `;`; without `;` there are no attributes; a later piece without `=` fails |
| CookieJars.TokenEntry | src/main/kotlin/me/kyleclemens/khttp/structures/cookie/CookieJar.kt:13-18 | an entry whose value is a plain token becomes that cookie with no attributes |
| CookieJars.MapRoundTrip | src/main/kotlin/me/kyleclemens/khttp/structures/cookie/CookieJar.kt:8-23 | building a jar from a map with distinct keys and plain values and reading it back as a map gives the map |
| CookieJars.TrimAll | src/main/kotlin/me/kyleclemens/khttp/structures/cookie/CookieJar.kt:13 | every piece is trimmed, in order |
| HeaderMaps.MatchingValuesSpec | src/main/kotlin/me/kyleclemens/khttp/structures/maps/CaseInsensitiveMap.kt:17 | a key has matches exactly when some stored key equals it ignoring case, and the first match is the first such entry |
| HeaderMaps.GetSpec | src/main/kotlin/me/kyleclemens/khttp/structures/maps/CaseInsensitiveMap.kt:15-18 | `get` of a non-null key is absent exactly when no stored key matches it ignoring case, and otherwise is the value of the first matching entry |
| HeaderMaps.ContainsKeyGet | src/main/kotlin/me/kyleclemens/khttp/structures/maps/CaseInsensitiveMap.kt:10-18 | `containsKey` holds exactly when `get` finds a value, for null and non-null keys |
| HeaderMaps.CaseBlind | src/main/kotlin/me/kyleclemens/khttp/structures/maps/CaseInsensitiveMap.kt:12-17 | keys that differ only in case give the same `get` and `containsKey` |
| HeaderMaps.StoredFound | src/main/kotlin/me/kyleclemens/khttp/structures/maps/CaseInsensitiveMap.kt:17 | any case variant of a stored key finds that key's value when stored keys are distinct ignoring case |
| HeaderMaps.NullKey | src/main/kotlin/me/kyleclemens/khttp/structures/maps/CaseInsensitiveMap.kt:11-16 | a null key is looked up in the backing map unchanged |
| HeaderMaps.Delegated | src/main/kotlin/me/kyleclemens/khttp/structures/maps/CaseInsensitiveMap.kt:8-22 | size, keys and `toString` are those of the backing map; stored keys are not normalised |
| HeaderMaps.Example | src/main/kotlin/me/kyleclemens/khttp/structures/maps/CaseInsensitiveMap.kt:17 | `get("A") == get("a") == "b"` and `containsKey("C")` on `{a=b, c=d}` |
| UrlEncoding.Utf8 | src/main/kotlin/me/kyleclemens/khttp/structures/parameters/Parameters.kt:19 | a character's UTF-8 form has one to four bytes |
| UrlEncoding.Utf8RoundTrip | src/main/kotlin/me/kyleclemens/khttp/structures/parameters/Parameters.kt:19 | the UTF-8 form of a character starts with a lead byte giving its length, continues with continuation bytes and decodes to the character |
| UrlEncoding.EncodeChars | src/main/kotlin/me/kyleclemens/khttp/structures/parameters/Parameters.kt:19 | `URLEncoder.encode` emits only unreserved characters, `+` and `%XX`, and never `&`, `=`, `;` or a space |
| UrlEncoding.EncodeUnreserved | src/main/kotlin/me/kyleclemens/khttp/structures/parameters/Parameters.kt:19 | a value made of letters, digits and `.-*_` is emitted unchanged |
| UrlEncoding.DecodeEncode | src/main/kotlin/me/kyleclemens/khttp/structures/parameters/Parameters.kt:19 | decoding the form encoding of a value gives the value back |
| UrlEncoding.EncodeInjective | src/main/kotlin/me/kyleclemens/khttp/structures/parameters/Parameters.kt:19 | distinct values have distinct encodings |
| UrlEncoding.Examples | src/main/kotlin/me/kyleclemens/khttp/structures/parameters/Parameters.kt:19 | a space becomes `+` and `&` becomes `%26` |
| ParameterEncoding.ToString | src/main/kotlin/me/kyleclemens/khttp/structures/parameters/Parameters.kt:14-22 | the loop builds the query text: empty for no parameters, otherwise `key=encode(value)` pairs in map order joined by `&` |
| ParameterEncoding.MakeParams | src/main/kotlin/me/kyleclemens/khttp/requests/KHttpGenericRequest.kt:232-239 | the loop gives the empty text for no parameters and otherwise `?` followed by the query text |
| ParameterEncoding.EmptyQuery | src/main/kotlin/me/kyleclemens/khttp/structures/parameters/Parameters.kt:15 | empty parameters give the empty text |
| ParameterEncoding.QuerySplit | src/main/kotlin/me/kyleclemens/khttp/structures/parameters/Parameters.kt:16-21 | splitting the query text on `&` gives one `key=encode(value)` field per entry, so there are size − 1 separators and no leading or trailing `&` |
| ParameterEncoding.QueryRoundTrip | src/main/kotlin/me/kyleclemens/khttp/structures/parameters/Parameters.kt:14-22 | the query text of non-empty parameters with plain keys parses back to the parameters, with keys verbatim and values decoded |
| ParameterEncoding.OfPairsSpec | src/main/kotlin/me/kyleclemens/khttp/structures/parameters/Parameters.kt:10 | a lookup gives the last value supplied for the key; the size is the number of distinct keys |
| ParameterEncoding.DuplicateCollapses | src/main/kotlin/me/kyleclemens/khttp/structures/parameters/Parameters.kt:10 | two pairs with one key collapse into one entry with the later value |
| ParameterEncoding.OfMapKeeps | src/main/kotlin/me/kyleclemens/khttp/structures/parameters/Parameters.kt:12 | the map constructor keeps the map's entries unchanged |
| ParameterEncoding.Example | src/main/kotlin/me/kyleclemens/khttp/structures/parameters/Parameters.kt:14-22 | `{test=value, jest=lalue}` is written `test=value&jest=lalue` |
| Requests.AllowRedirects | src/main/kotlin/khttp/requests/GenericRequest.kt:59 | `allowRedirects` is the given value, and when none is given it holds exactly when the method is not `HEAD` |
| Requests.CoerceToJson | src/main/kotlin/khttp/requests/GenericRequest.kt:96-116 | JSON coercion succeeds with the serialised form for every kind the library handles and otherwise fails with `Could not coerce <name> to JSON.` |
| Requests.WithoutDashes | src/main/kotlin/khttp/requests/GenericRequest.kt:84 | the boundary text holds no `-` |
| Requests.UploadFormat | src/main/kotlin/khttp/requests/GenericRequest.kt:84 | the multipart type is `multipart/form-data; boundary=` followed by the UUID without dashes |
| Requests.Build | src/main/kotlin/khttp/requests/GenericRequest.kt:61-94 | the `init` steps, run in order on a local header map, give exactly the request the construction function describes, or its failure |
| Requests.HeaderUpdates | src/main/kotlin/khttp/requests/GenericRequest.kt:82-92 | the loop over the late header writes (multipart or form type, then auth) gives the header map of the construction function |
| Requests.BuiltOutcome | src/main/kotlin/khttp/requests/GenericRequest.kt:61-76 | construction fails with `MalformedUrl` when the route with its query is not a URL, with `Invalid schema` for a scheme other than http or https, and otherwise succeeds exactly when the JSON, if any, coerces |
| Requests.BuiltFields | src/main/kotlin/khttp/requests/GenericRequest.kt:59-76 | a built request has the route plus query as URL, the coerced JSON or the data as body, the defaulted `allowRedirects`, and every other argument unchanged |
| Requests.BuiltHeaders | src/main/kotlin/khttp/requests/GenericRequest.kt:67-93 | a header of the built request is the auth value for the auth name, else the chosen content type, else the caller's value, else the default |
| Requests.ContentTypeAgrees | src/main/kotlin/khttp/requests/GenericRequest.kt:68-87 | the content type is the multipart type for files, else the form type for map data, else `application/json` or `text/plain` from the early step |
| Requests.BuiltKeepsOrder | src/main/kotlin/khttp/requests/GenericRequest.kt:67-93 | the caller's headers keep their order, later keys follow them, and keys stay distinct |
| Requests.HeadDefault | src/main/kotlin/khttp/requests/GenericRequest.kt:59 | without an explicit value, a built request refuses redirects exactly when its method is `HEAD` |
| Requests.AddDefaultsGet | src/main/kotlin/khttp/requests/GenericRequest.kt:77-81 | a default is used only for a key the caller did not set |
| Requests.DefaultedGet | src/main/kotlin/khttp/requests/GenericRequest.kt:68-81 | after the early content type and the defaults, a header is the early content type, else the caller's value, else the default |
| Requests.LateAuthGet | src/main/kotlin/khttp/requests/GenericRequest.kt:82-92 | the late content type and then the auth header override earlier values of their own keys only |
| Requests.HeadersGet | src/main/kotlin/khttp/requests/GenericRequest.kt:67-93 | the full precedence of the header steps: auth, then late content type, then early content type, then caller, then defaults |
| Requests.HeadersKeys | src/main/kotlin/khttp/requests/GenericRequest.kt:67-93 | the header steps keep the caller's keys first and in order, and keep keys distinct |
| LegacyRequests.HeaderMap.Set | src/main/kotlin/me/kyleclemens/khttp/requests/KHttpGenericRequest.kt:187 | `headers[key] = value` on the caller's map replaces or appends that one entry |
| LegacyRequests.HeaderMap.PutAll | src/main/kotlin/me/kyleclemens/khttp/requests/KHttpGenericRequest.kt:179 | `headers += other` writes each entry of the other map in order |
| LegacyRequests.KHttpGenericRequest.Create | src/main/kotlin/me/kyleclemens/khttp/requests/KHttpGenericRequest.kt:170-199 | construction fails exactly as the URL, scheme and JSON checks do, leaving the caller's map alone; on success it mutates the caller's own header map in place with the content type, defaults, form type and auth, and that map becomes the request's headers |
| LegacyRequests.LegacyHeaderUpdates | src/main/kotlin/me/kyleclemens/khttp/requests/KHttpGenericRequest.kt:190-197 | the form type and then the auth header are written to the caller's map in place |
| LegacyRequests.LegacyHeadersGet | src/main/kotlin/me/kyleclemens/khttp/requests/KHttpGenericRequest.kt:175-197 | a header of the legacy request is the auth value, else the form type for a form body, else `application/json` or `text/plain`, else the caller's value, else the default |
| LegacyRequests.PlainMapNotForm | src/main/kotlin/me/kyleclemens/khttp/requests/KHttpGenericRequest.kt:190-192 | a plain map body is not a form body in the legacy request, though the current request gives it the form type |
| LegacyRequests.KHttpGenericRequest.Body | src/main/kotlin/me/kyleclemens/khttp/requests/KHttpGenericRequest.kt:154-166 | no body is written without data; a `Parameters` body is `makeParams` without its leading `?`, any other body its text |
| LegacyRequests.ParametersBodyExample | src/main/kotlin/me/kyleclemens/khttp/requests/KHttpGenericRequest.kt:159-160 | parameters `a=b`, `c=d` are written `a=b&c=d` |
| LegacyRequests.LegacyCookieHeader | src/main/kotlin/me/kyleclemens/khttp/requests/KHttpGenericRequest.kt:138-144 | no `Cookie` header without cookies; a jar is written as is; a map is converted to a jar first and fails when an entry does not convert |
| LegacyRequests.TimeoutWraps | src/main/kotlin/me/kyleclemens/khttp/requests/KHttpGenericRequest.kt:145-148 | `timeout * 1000` is exact for timeouts up to 2147483 seconds and wraps to a negative value at 2147484 |
| Redirects.ParseAllOk | src/main/kotlin/khttp/responses/GenericResponse.kt:31-32 | the `Set-Cookie` values parse into a jar exactly when each value parses as a cookie |
| Redirects.ParseAllValues | src/main/kotlin/khttp/responses/GenericResponse.kt:31-32 | the jar holds one cookie per `Set-Cookie` value, in order |
| Redirects.SetCookieTextsAt | src/main/kotlin/khttp/responses/GenericResponse.kt:32 | only the values of the field keyed exactly `Set-Cookie` are read |
| Redirects.SetCookieTextsAbsent | src/main/kotlin/khttp/responses/GenericResponse.kt:32 | no field keyed exactly `Set-Cookie` gives no cookies |
| Redirects.SentBodyForm | src/main/kotlin/khttp/responses/GenericResponse.kt:89-102 | a map body that is not `Parameters` is written as `Parameters` of its entries; any other body as its text |
| Redirects.WireSpec | src/main/kotlin/khttp/responses/GenericResponse.kt:63-108 | the connection carries the request's method and URL with redirects off; a `Cookie` header exactly when the request has cookies, the request cookies merged with the response jar; every other property is the request's header; a body exactly when there is data |
| Redirects.ChainStep | src/main/kotlin/khttp/responses/GenericResponse.kt:111-142 | one step of the chain: the first hop is this request's visit; it ends there unless the hop is followed, and otherwise continues with the rebuilt request and the hop's jar |
| Redirects.ChainShape | src/main/kotlin/khttp/responses/GenericResponse.kt:111-142 | a chain starts with this request's visit, ends on an answer that is not followed, and links each followed hop to the request rebuilt from it |
| Redirects.SingleHop | src/main/kotlin/khttp/responses/GenericResponse.kt:117 | a hop that is not a 301, 302 or 303, or a first request that refuses redirects, ends the chain after one hop |
| Redirects.NextRequestSpec | src/main/kotlin/khttp/responses/GenericResponse.kt:118-136 | the next request keeps the first request's method, params, body, JSON, auth, timeout and stream, refuses redirects, goes to `Location` resolved against the current URL, and sends the hop's cookies overlaid by the first request's; its jar starts as the hop's cookies |
| Redirects.NextRequestFails | src/main/kotlin/khttp/responses/GenericResponse.kt:123 | a missing `Location` fails with `NullPointer`, and one that does not resolve fails with `UnresolvableLocation` |
| Redirects.MergeGet | src/main/kotlin/khttp/responses/GenericResponse.kt:129 | the merged cookies take a name's value from the first request's cookies when they have it, else from the hop's |
| Redirects.HopCookies | src/main/kotlin/khttp/responses/GenericResponse.kt:129-136 | the next hop sends the first request's value of a cookie when it has one and the hop's value otherwise |
| Redirects.FieldLookup | src/main/kotlin/khttp/responses/GenericResponse.kt:162-163 | the `headers` view finds the first field matching a name ignoring case, with its values joined by `, `, and holds no null key |
| Redirects.NoNullKey | src/main/kotlin/khttp/responses/GenericResponse.kt:163 | the status line's null key is filtered out of the `headers` view |
| Redirects.NoMatchAbsent | src/main/kotlin/khttp/responses/GenericResponse.kt:163 | a name no field matches is absent from the `headers` view |
| Redirects.DecoderChoice | src/main/kotlin/khttp/responses/GenericResponse.kt:165-177 | the decoder is gzip for `gzip`, inflate for `deflate` and none otherwise, after lower-casing `Content-Encoding` |
| Redirects.NoEncodingIdentity | src/main/kotlin/khttp/responses/GenericResponse.kt:173-176 | no `Content-Encoding` means no decoder |
| Redirects.CharsetParamOf | src/main/kotlin/khttp/responses/GenericResponse.kt:225-226 | a `;` piece whose trimmed, lower-cased name is `charset` and which has exactly one `=` gives the charset |
| Redirects.NoCharsetParam | src/main/kotlin/khttp/responses/GenericResponse.kt:226 | a content type without parameters gives no charset |
| Responses.GenericResponse.constructor | src/main/kotlin/khttp/responses/GenericResponse.kt:144-216 | a new response has empty history, no cached connection, stream, content or encoding, and an empty jar |
| Responses.GenericResponse.Open | src/main/kotlin/khttp/responses/GenericResponse.kt:111-142 | opening gives the first exchange of the chain and stores its jar, and the first response's history gains the responses of the later hops, in order, each holding its hop |
| Responses.GenericResponse.Follow | src/main/kotlin/khttp/responses/GenericResponse.kt:117-140 | a followed hop creates a response for the rebuilt request whose jar is the hop's cookies and whose history copies the first response's, appends it to that history, and initializes it |
| Responses.GenericResponse.StartCurrent | src/main/kotlin/khttp/responses/GenericResponse.kt:285-291 | `init()` on a hop response connects when streaming and downloads the content otherwise, recording the rest of the chain |
| Responses.GenericResponse.StartInterim | src/main/kotlin/khttp/responses/KHttpGenericResponse.kt:55-60 | a hop response of the earlier revision only connects, if not yet connected, recording the rest of the chain |
| Responses.GenericResponse.Start | src/main/kotlin/khttp/responses/GenericResponse.kt:139 | a hop response is initialized as its revision does |
| Responses.GenericResponse.Connection | src/main/kotlin/khttp/responses/GenericResponse.kt:148-157 | the `connection` getter returns the cached exchange, or adds this response to its own empty history and opens the chain, caching only a success |
| Responses.GenericResponse.Raw | src/main/kotlin/khttp/responses/GenericResponse.kt:179-186 | the `raw` getter returns the cached stream or connects and caches the body through the decoder `Content-Encoding` names |
| Responses.GenericResponse.Content | src/main/kotlin/khttp/responses/GenericResponse.kt:188-195 | the `content` getter returns cached content, or reads the whole stream once and caches it |
| Responses.GenericResponse.Init | src/main/kotlin/khttp/responses/GenericResponse.kt:285-291 | `init()` connects when streaming and reads the content otherwise |
| Responses.GenericResponse.Encoding | src/main/kotlin/khttp/responses/GenericResponse.kt:220-230 | an encoding set by the caller wins; otherwise the charset is the `charset` parameter of `Content-Type`, upper-cased, else UTF-8 |
| Responses.GenericResponse.SetEncoding | src/main/kotlin/khttp/responses/GenericResponse.kt:231-233 | setting the encoding records it |
| Responses.GenericResponse.Text | src/main/kotlin/khttp/responses/GenericResponse.kt:197-198 | the text is the cached content decoded with the current encoding; with content and encoding both at hand it changes nothing and does not read again |
| Responses.GenericResponse.StatusCode | src/main/kotlin/khttp/responses/GenericResponse.kt:159-160 | the status code is the status of the connection's answer |
| Responses.GenericResponse.ToString | src/main/kotlin/khttp/responses/GenericResponse.kt:278-280 | the text is `<Response [status]>`, connecting first |
| Responses.GenericResponse.Headers | src/main/kotlin/khttp/responses/GenericResponse.kt:162-163 | the headers are the case-insensitive view of the answer's fields, connecting first |
| Responses.GenericResponse.Cookies | src/main/kotlin/khttp/responses/GenericResponse.kt:206-211 | the jar is returned once connected, and the getter fails when connecting fails |
| Responses.GenericResponse.Url | src/main/kotlin/khttp/responses/GenericResponse.kt:213-214 | the URL is the one this response connected to |
| Responses.StatusTextReads | src/main/kotlin/khttp/responses/GenericResponse.kt:278-280 | the status can be read back from the text of `toString` |
| Responses.RecordedCons | src/main/kotlin/khttp/responses/GenericResponse.kt:137-138 | a hop response followed by the recorded later hops is a recorded chain |
| Iterators.ContentIterator.constructor | src/main/kotlin/khttp/responses/GenericResponse.kt:238-240 | the iterator reads the body given to it, with the given chunk size |
| Iterators.ContentIterator.HasNext | src/main/kotlin/khttp/responses/GenericResponse.kt:244 | corrected: `hasNext` holds exactly while bytes of the body remain, for a buffered body as for a streamed one |
| Iterators.AsWrittenBufferedEmpty | src/main/kotlin/khttp/responses/GenericResponse.kt:238-245 | as written: on a streamed body `hasNext` holds while bytes remain, but `content` drains and closes the raw stream, so on a buffered body `hasNext` is false before the first chunk |
| Iterators.ContentIterator.Next | src/main/kotlin/khttp/responses/GenericResponse.kt:242 | `next` takes the next `chunkSize` bytes, or fewer at the end, and the chunk and what remains make up the stream before the call |
| Iterators.ChunksCover | src/main/kotlin/khttp/responses/GenericResponse.kt:238-246 | the chunks concatenate to the body, none is empty or longer than the chunk size, and all but the last have exactly that size |
| Iterators.ChunksStep | src/main/kotlin/khttp/responses/GenericResponse.kt:242 | one `next` peels the first chunk off the chunk sequence |
| Iterators.PaddedChunk | src/main/kotlin/khttp/responses/GenericResponse.kt:242 | `ByteArray(chunkSize)` always has `chunkSize` bytes, however many are read into it |
| Iterators.PaddedChunkGrows | src/main/kotlin/khttp/responses/GenericResponse.kt:242 | a last read shorter than the chunk size keeps the bytes and pads with zeros, so the chunk is not the bytes read |
| Iterators.PaddedExample | src/main/kotlin/khttp/responses/GenericResponse.kt:242 | three bytes read in chunks of two come out as four bytes |
| Iterators.LineIterator.constructor | src/main/kotlin/khttp/responses/GenericResponse.kt:250-252 | a line iterator starts with no leftover and no queued fragments over the content iterator |
| Iterators.LineIterator.HasNext | src/main/kotlin/khttp/responses/GenericResponse.kt:273 | `hasNext` consults only the chunk source |
| Iterators.LineIterator.Next | src/main/kotlin/khttp/responses/GenericResponse.kt:254-271 | `next` returns a queued fragment first; otherwise it reads chunks onto the leftover until a split gives two parts, returns the first, keeps the last as leftover and queues the rest; with the chunks exhausted it returns the leftover |
| Iterators.ScanCons | src/main/kotlin/khttp/responses/GenericResponse.kt:257-268 | one chunk read: a split into two or more parts returns the first, keeps the last, and queues the interior; otherwise the content becomes the leftover |
| Iterators.ScanReads | src/main/kotlin/khttp/responses/GenericResponse.kt:256-270 | a scan consumes a prefix of the chunks; a line leaves a leftover; running out of chunks leaves nothing queued |
| Iterators.ScanLine | src/main/kotlin/khttp/responses/GenericResponse.kt:260-266 | the returned line, the queued fragments and the new leftover are exactly the split of the leftover plus the chunks read |
| Iterators.ScanFirst | src/main/kotlin/khttp/responses/GenericResponse.kt:257-268 | no shorter prefix of the chunks read would have split into two parts |
| Khttp.Request | src/main/kotlin/khttp/KHttp.kt:50-58 | `request` builds the request, fails as construction or the chain does, and otherwise returns the response of the last hop, holding that hop's exchange, jar and content, with the earlier responses as its history, and removes it from the first response's history |
| Khttp.Launch | src/main/kotlin/khttp/KHttp.kt:52-56 | `init()` and then removing the last history entry give the last hop's response with the earlier hops as history |
| Khttp.Detach | src/main/kotlin/khttp/KHttp.kt:54-56 | removing the last entry of the first response's history leaves the earlier responses, oldest first, and returns the last hop's response |
| Khttp.Remove | src/main/kotlin/khttp/KHttp.kt:55 | `remove(x)` drops one element when `x` is present and changes nothing otherwise |
| Khttp.RemoveLast | src/main/kotlin/khttp/KHttp.kt:54-55 | removing the last element, when it occurs only there, leaves the prefix |
| Khttp.RecordedAt | src/main/kotlin/khttp/responses/GenericResponse.kt:137-138 | each recorded hop response holds its hop and the responses before it as history |
| Khttp.RecordedDistinct | src/main/kotlin/khttp/responses/GenericResponse.kt:137-138 | the last recorded response occurs nowhere earlier in the history |
| Khttp.Settle | src/main/kotlin/khttp/KHttp.kt:54-55 | the last response of the first response's history occurs only once in it |
| Khttp.Call | src/main/kotlin/khttp/KHttp.kt:15-48 | a verb function succeeds exactly when `request` with its method does, and the first response's request carries the verb's method |
| Khttp.VerbNames | src/main/kotlin/khttp/KHttp.kt:15-48 | the verbs have distinct method names, and with the default settings only `HEAD` refuses redirects |
| Khttp.BuiltMethod | src/main/kotlin/khttp/KHttp.kt:52 | the built request keeps the method it was given |
| Khttp.HeadNoFollow | src/main/kotlin/khttp/KHttp.kt:26-28 | `head` with default settings stops after one hop |
| EarliestResponses.LastValues | src/main/kotlin/me/kyleclemens/khttp/responses/KHttpGenericResponse.kt:50-51 | the `headers` map keeps every field, null key included, with its last value, and fails when a field has no values |
| EarliestResponses.HeaderAt | src/main/kotlin/me/kyleclemens/khttp/responses/KHttpGenericResponse.kt:51 | a field name looks up its last value |
| EarliestResponses.HeaderAbsent | src/main/kotlin/me/kyleclemens/khttp/responses/KHttpGenericResponse.kt:51 | a name no field carries is absent |
| EarliestResponses.ContentTypeExactCase | src/main/kotlin/me/kyleclemens/khttp/responses/KHttpGenericResponse.kt:113 | the `Content-Type` lookup is exact-case, so without a field of that exact name the charset is UTF-8 |
| EarliestResponses.EarliestWireSpec | src/main/kotlin/me/kyleclemens/khttp/responses/KHttpGenericResponse.kt:124-165 | the connection carries the method and URL with redirects off and the request's body; a `Cookie` header when the request has cookies, merged with the jar; every other property is the request's header; timeouts are `timeout * 1000` when that fits in 32 bits |
| EarliestResponses.RedirectingLands | src/main/kotlin/me/kyleclemens/khttp/responses/KHttpGenericResponse.kt:24-34 | a redirect chain that succeeds lands on an answer that is not followed, obtained by a visit to the landing URL |
| EarliestResponses.AnsweredLands | src/main/kotlin/me/kyleclemens/khttp/responses/KHttpGenericResponse.kt:30-33 | once a visit is answered, the chain from it lands on an answer that is not followed |
| EarliestResponses.NoRedirectsOneVisit | src/main/kotlin/me/kyleclemens/khttp/responses/KHttpGenericResponse.kt:30 | a request that refuses redirects makes exactly one visit |
| EarliestResponses.JarGrows | src/main/kotlin/me/kyleclemens/khttp/responses/KHttpGenericResponse.kt:160-164 | the jar only gains names across the hops |
| EarliestResponses.AnsweredJar | src/main/kotlin/me/kyleclemens/khttp/responses/KHttpGenericResponse.kt:160-164 | the jar only gains names once a visit is answered |
| EarliestResponses.VisitJar | src/main/kotlin/me/kyleclemens/khttp/responses/KHttpGenericResponse.kt:160-164 | one visit only adds names to the jar |
| EarliestResponses.EarliestResponse.constructor | src/main/kotlin/me/kyleclemens/khttp/responses/KHttpGenericResponse.kt:22-104 | a new response has nothing cached and an empty jar |
| EarliestResponses.EarliestResponse.OpenRedirecting | src/main/kotlin/me/kyleclemens/khttp/responses/KHttpGenericResponse.kt:24-34 | the recursive reopening gives the chain's landing and leaves the jar as the chain leaves it |
| EarliestResponses.EarliestResponse.Connection | src/main/kotlin/me/kyleclemens/khttp/responses/KHttpGenericResponse.kt:36-45 | the cached landing, or the chain from the request's URL, caching only a success |
| EarliestResponses.EarliestResponse.StatusCode | src/main/kotlin/me/kyleclemens/khttp/responses/KHttpGenericResponse.kt:47-48 | the status of the landing; the connection is cached and the jar is the one the chain leaves, or both are unchanged when already connected |
| EarliestResponses.EarliestResponse.Headers | src/main/kotlin/me/kyleclemens/khttp/responses/KHttpGenericResponse.kt:50-51 | the last-value map of the landing's fields; the connection is cached and the jar is the one the chain leaves, or both are unchanged when already connected |
| EarliestResponses.EarliestResponse.Url | src/main/kotlin/me/kyleclemens/khttp/responses/KHttpGenericResponse.kt:101-102 | the URL of the landing; the connection is cached and the jar is the one the chain leaves, or both are unchanged when already connected |
| EarliestResponses.EarliestResponse.Cookies | src/main/kotlin/me/kyleclemens/khttp/responses/KHttpGenericResponse.kt:94-99 | the jar, once connected: when not yet connected, the old jar with every visited hop's `Set-Cookie` cookies put in; the connection is cached |
| EarliestResponses.EarliestResponse.Raw | src/main/kotlin/me/kyleclemens/khttp/responses/KHttpGenericResponse.kt:53-74 | the cached stream, changing nothing, or the landing's body through the decoder named by `Content-Encoding`, with the connection and jar as the `connection` getter leaves them |
| EarliestResponses.EarliestResponse.Content | src/main/kotlin/me/kyleclemens/khttp/responses/KHttpGenericResponse.kt:76-83 | cached content, or the whole stream read once and cached, with the connection and jar as the `connection` getter leaves them |
| EarliestResponses.EarliestResponse.Encoding | src/main/kotlin/me/kyleclemens/khttp/responses/KHttpGenericResponse.kt:108-118 | an encoding set by the caller wins and changes nothing; otherwise the `charset` parameter, upper-cased, else UTF-8, with the connection and jar as the `connection` getter leaves them |
| EarliestResponses.EarliestResponse.SetEncoding | src/main/kotlin/me/kyleclemens/khttp/responses/KHttpGenericResponse.kt:119-121 | setting the encoding records it |
| EarliestResponses.EarliestResponse.Text | src/main/kotlin/me/kyleclemens/khttp/responses/KHttpGenericResponse.kt:85-86 | the text decodes the content; with content and encoding at hand it changes nothing |

## Left out

- The transport is a parameter: `HttpURLConnection` is a function from the prepared wire request (method, URL, properties, body, timeouts) to an exchange (status, header fields, body bytes). `errorStream`, `available()`, partial reads and stream closing are not modelled.
- URL parsing with IDN host conversion, `URI` scheme extraction, `URI.resolve` of `Location`, `Charset.forName`, byte-to-text decoding, and gzip and inflate streams are functions of the `Platform` value. Only the choice among them is modelled.
- The JSON library is left out. `coerceToJSON` keeps its type dispatch and its error message, with the serialised text given by the value. `jsonObject` and `jsonArray` are not modelled.
- The random multipart boundary is a UUID text passed in as a parameter.
- `forceMethod` and `getSuperclasses` are JVM reflection workarounds. Setting the method is modelled as the wire request's method.
- The current request's timeout is a `Double`, converted by `(timeout * 1000.0).toInt()`. The model passes the converted milliseconds through the `Platform` value; floating point is not modelled.
- The source follows redirects without any bound. Each model of a chain has a hop budget, and running out of it is the `TooManyRedirects` failure, which the source never raises.
- The custom `initializers` list is left out. It is empty unless a caller adds to it, and its entries are arbitrary code.
- Trimming and case conversion treat ASCII characters only. Kotlin's `trim` and `toLowerCase` also handle non-ASCII whitespace (such as U+00A0 and U+2028) and letters. Among ASCII characters, whitespace is the space, tab, line feed, vertical tab, form feed, carriage return and U+001C to U+001F, as `Char.isWhitespace` has it.
- `BasicAuthorization` is left out; an authorization is the header name and value it produces. The Rx and async wrappers and the `FileLike` extensions are also left out.
- `KHttpGenericRequest`'s own response getters (`status`, `raw`, `text`, `jsonObject`, `jsonArray`, connecting without redirects) are not modelled. Only its construction, its header, cookie and timeout initializers, and its body are.
- The earliest `KHttpGenericResponse` reads its request fields through an interface whose implementation is not part of this model. Its request is a plain record of those fields.
- The earliest revision checks `URL(request.url)` with the platform's URL parser. The `toURL()` of each resolved `Location` is not checked; only the resolution itself can fail there.
- Responses.GenericResponse.Url: returns the request's URL text; the normalisation `URL.toString()` may apply is not modelled.
- Responses.GenericResponse.Cookies: on a failed connection it states only the failure; the source's partially filled jar is not described.
- Responses.GenericResponse.Text: states the decoded text only when it succeeds, plus the no-change case; on a failure it does not describe which step failed.
- Iterators.LineIterator.Next: when the chunks run out in the middle of its inner loop, the source goes on reading zero-filled chunks without end; the model stops there with the `EndlessRead` failure.
- Iterators.LineIterator.Next: requires a positive chunk size; with size 0 the source reads empty chunks forever.
- Iterators.ContentIterator.Next: models the intended chunking, the last chunk shorter, as recorded under Findings. Streaming and buffered bodies are one byte sequence.
- Iterators.ContentIterator.HasNext: models the intended answer, whether bytes of the body remain, as recorded under Findings. The source asks `raw.available()`, which for a buffered body is asked of a stream `content` has drained and closed, so the source offers no chunk (or throws); `AsWrittenHasNext` models that, taking a closed stream to have nothing available. For an open stream, `available()` is taken as "bytes remain", though it may answer 0 before data arrives.
- Iterators.LineIterator.Next: runs on the corrected chunks of `ContentIterator`, so the leftover it answers once the chunks run out lacks the trailing zeros the source's padded last chunk carries (body `a\nb`, chunk size 4, delimiter `\n`: the source's second `next()` answers `b` followed by a zero byte, the model's `b`).
- Responses.GenericResponse.Open: for the earlier `khttp.responses.KHttpGenericResponse`, the next hop's request is built by `khttp.requests.KHttpGenericRequest`, which is not part of this model. The model builds it by `GenericRequest`'s rules (`Requests.Build` of `Redirects.NextArguments`), which forward the first request's `stream`; the source passes no `stream`, so that request takes its default.
- EarliestResponses.EarliestResponse.Text: states that the text is a decoding of the content, with the exact charset only when one was set; with no encoding set, the charset follows `Encoding`.

## Findings

| source | as written | input that shows it | evidently intended | confidence | as-written member | corrected member |
|---|---|---|---|---|---|---|
| src/main/kotlin/me/kyleclemens/khttp/structures/cookie/Cookie.kt:34 | attributes are joined with `, ` (the default `joinToString` separator) | `Cookie("k", "v", {a=1, b=2})` writes `v; a=1, b=2`; parsing `k=v; a=1, b=2` gives one attribute `a` = `1, b` | attributes joined with `; `, so that parsing the written form gives the cookie back | not executed | CookieRoundTrip.AsWrittenLosesAttributes | CookieRoundTrip.IntendedRoundTrip |
| src/main/kotlin/khttp/responses/GenericResponse.kt:242 | `next()` returns a fresh `ByteArray(chunkSize)` filled by one `read`, so a short last read leaves trailing zeros | body `[1, 2, 3]` read in chunks of 2 gives `[1, 2]` then `[3, 0]` | the last chunk holds only the bytes read, so the chunks concatenate to the body | not executed | Iterators.PaddedChunkGrows | Iterators.ContentIterator.Next |
| src/main/kotlin/khttp/responses/GenericResponse.kt:244 | `hasNext()` asks `raw.available()`, but for a buffered body the iterator reads `content`, and reading `content` has drained and closed `raw` (line 192) | a non-streaming request whose body is `[1]`: `hasNext()` is false before the first chunk (or `available()` throws on the closed stream) | ask the stream the iterator reads whether bytes remain, so every chunk of the body is offered | not executed | Iterators.AsWrittenBufferedEmpty | Iterators.ContentIterator.HasNext |

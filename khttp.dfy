/** The entry points of `khttp`: one function per HTTP verb, each handing its
    arguments to `request`, which builds a `GenericRequest`, initializes a
    `GenericResponse` for it and answers the last response of the redirect
    chain, taking it out of the first response's history. */
module Khttp {
  import opened Wrappers
  import opened OrderedMaps
  import opened Platforms
  import opened Requests
  import opened Redirects
  import opened Responses

  datatype Verb = Delete | Get | Head | Options | Patch | Post | Put

  /** The request method each verb function passes on. */
  function MethodName(v: Verb): string
  {
    match v
    case Delete => "DELETE"
    case Get => "GET"
    case Head => "HEAD"
    case Options => "OPTIONS"
    case Patch => "PATCH"
    case Post => "POST"
    case Put => "PUT"
  }

  /** The keyword arguments every verb function takes. */
  datatype Settings = Settings(
    headers: Entries<string, string>,
    params: Entries<string, string>,
    data: Option<Data>,
    json: Option<Json>,
    auth: Option<(string, string)>,
    cookies: Option<Entries<string, string>>,
    timeout: real,
    allowRedirects: Option<bool>,
    stream: bool)

  /** The defaults: no headers, parameters, body, authorization or cookies,
      a 30 second timeout, redirects as the method decides, no streaming. */
  const Defaults: Settings := Settings([], [], None, None, None, None, 30.0, None, false)

  /** The arguments `request` hands to the `GenericRequest` constructor: no
      files. */
  function ArgumentsOf(httpMethod: string, url: string, s: Settings): Arguments
  {
    Arguments(httpMethod, url, s.params, s.headers, s.data, s.json, s.auth, s.cookies,
              s.timeout, s.allowRedirects, s.stream, [])
  }

  /** `MutableList.remove(element)`: the list without the first occurrence
      of `x`. */
  function Remove<T(==)>(s: seq<T>, x: T): (r: seq<T>)
    ensures x !in s ==> r == s
    ensures x in s ==> |r| == |s| - 1
  {
    if |s| == 0 then s
    else if s[0] == x then s[1..]
    else [s[0]] + Remove(s[1..], x)
  }

  /** Removing the last element, when it occurs nowhere before, drops it. */
  lemma {:induction false} RemoveLast<T>(s: seq<T>)
    requires |s| > 0 && s[|s| - 1] !in s[..|s| - 1]
    ensures Remove(s, s[|s| - 1]) == s[..|s| - 1]
  {
    if |s| > 1 {
      assert s[0] in s[..|s| - 1];
      assert s[1..][..|s| - 2] == s[..|s| - 1][1..];
      RemoveLast(s[1..]);
      assert [s[0]] + s[..|s| - 1][1..] == s[..|s| - 1];
    }
  }

  /** Each recorded response holds the history it was given: the prefix and
      the responses before it. */
  lemma {:induction false} RecordedAt(hops: seq<Hop>, rs: seq<GenericResponse>, prefix: seq<GenericResponse>,
                                      p: Platform, rev: Revision, k: nat)
    requires Recorded(hops, rs, prefix, p, rev) && k < |rs|
    ensures Reached(rs[k], hops[k], prefix + rs[..k], p, rev)
    decreases k
  {
    if k > 0 {
      RecordedAt(hops[1..], rs[1..], prefix + [rs[0]], p, rev, k - 1);
      assert prefix + [rs[0]] + rs[1..][..k - 1] == prefix + rs[..k];
    }
  }

  /** The recorded responses are distinct: each holds a longer history than
      the ones before it. */
  lemma RecordedDistinct(hops: seq<Hop>, rs: seq<GenericResponse>, prefix: seq<GenericResponse>,
                         p: Platform, rev: Revision)
    requires Recorded(hops, rs, prefix, p, rev) && |rs| > 0
    ensures rs[|rs| - 1] !in rs[..|rs| - 1]
  {
    var n := |rs|;
    RecordedAt(hops, rs, prefix, p, rev, n - 1);
    forall j | 0 <= j < n - 1
      ensures rs[j] != rs[n - 1]
    {
      RecordedAt(hops, rs, prefix, p, rev, j);
    }
  }

  /** `request`: build the request, initialize its response, and answer the
      last response of the chain after removing it from the history.  A
      failed build or a failed chain is the failure of the call.  With `k`
      hops, `k - 1` new responses were created; the answer is the last of
      the first response and those, holds the last hop's exchange, jar and,
      without streaming, content, and both it and the first response keep
      the responses before it as their history.  `budget` bounds the
      redirects followed. */
  method Request(p: Platform, httpMethod: string, url: string, s: Settings, budget: nat)
    returns (r: Result<GenericResponse>, ghost first: GenericResponse?, ghost news: seq<GenericResponse>)
    ensures var b := Built(p, ArgumentsOf(httpMethod, url, s), "");
      b.Err? ==> r == Err(b.error)
    ensures var b := Built(p, ArgumentsOf(httpMethod, url, s), "");
      b.Ok? ==>
        var c := Chain(p, b.value, b.value, [], budget);
        (r.Ok? <==> c.Ok?) && (c.Err? ==> r == Err(c.error))
    ensures r.Ok? ==> (
      var b := Built(p, ArgumentsOf(httpMethod, url, s), "").value;
      var hops := Chain(p, b, b, [], budget).value;
      var n := |hops|;
      first != null && fresh(first) && first.request == b && |news| == n - 1 &&
      r.value == ([first] + news)[n - 1] &&
      r.value.request == hops[n - 1].request &&
      r.value.connection == Some(hops[n - 1].exchange) && r.value.cookies == hops[n - 1].cookies &&
      r.value.contents == (if hops[n - 1].request.stream then None else Some(Decoded(p, hops[n - 1].exchange))) &&
      r.value.history == ([first] + news)[..n - 1] && first.history == ([first] + news)[..n - 1])
    ensures forall o :: o in news ==> fresh(o)
  {
    var built := Build(p, ArgumentsOf(httpMethod, url, s), "");
    if built.Err? {
      return Err(built.error), null, [];
    }
    r, first, news := Launch(p, built.value, budget);
  }

  /** The part of `request` after the build: a response for the request,
      initialized, then the last response of its chain taken out of the
      history and answered. */
  method Launch(p: Platform, req: GenericRequest, budget: nat)
    returns (r: Result<GenericResponse>, ghost first: GenericResponse?, ghost news: seq<GenericResponse>)
    ensures var c := Chain(p, req, req, [], budget);
      (r.Ok? <==> c.Ok?) && (c.Err? ==> r == Err(c.error))
    ensures r.Ok? ==> (
      var hops := Chain(p, req, req, [], budget).value;
      var n := |hops|;
      first != null && fresh(first) && first.request == req && |news| == n - 1 &&
      r.value == ([first] + news)[n - 1] &&
      r.value.request == hops[n - 1].request &&
      r.value.connection == Some(hops[n - 1].exchange) && r.value.cookies == hops[n - 1].cookies &&
      r.value.contents == (if hops[n - 1].request.stream then None else Some(Decoded(p, hops[n - 1].exchange))) &&
      r.value.history == ([first] + news)[..n - 1] && first.history == ([first] + news)[..n - 1])
    ensures forall o :: o in news ==> fresh(o)
  {
    var response := new GenericResponse(p, req, Current, budget);
    first := response;
    var status;
    label created:
    status, news := response.Init();
    Initialized@created(response, status, news);
    if status.Err? {
      return Err(status.error), first, news;
    }
    ghost var hops := Chain(p, req, req, [], budget).value;
    ChainShape(p, req, req, [], budget);
    var last := Detach(response, hops, news);
    r := Ok(last);
  }

  /** `_history.last().apply { _history.remove(this) }` on an initialized
      first response. */
  method Detach(response: GenericResponse, ghost hops: seq<Hop>, ghost news: seq<GenericResponse>)
    returns (last: GenericResponse)
    requires |hops| >= 1 && hops[0].request == response.request
    requires response.history == [response] + news && response !in news
    requires Recorded(hops[1..], news, [response], response.platform, Current)
    requires response.connection == Some(hops[0].exchange) && response.cookies == hops[0].cookies
    requires response.contents ==
      (if response.request.stream then None else Some(Decoded(response.platform, hops[0].exchange)))
    modifies response`history
    ensures var n := |hops|;
      |news| == n - 1 && last == ([response] + news)[n - 1] &&
      last.request == hops[n - 1].request &&
      last.connection == Some(hops[n - 1].exchange) && last.cookies == hops[n - 1].cookies &&
      last.contents == (if hops[n - 1].request.stream then None else Some(Decoded(response.platform, hops[n - 1].exchange))) &&
      last.history == ([response] + news)[..n - 1] && response.history == ([response] + news)[..n - 1]
  {
    last := response.history[|response.history| - 1];
    Settle(response, hops[1..], news);
    RemoveLast(response.history);
    if |news| > 0 {
      RecordedAt(hops[1..], news, [response], response.platform, Current, |news| - 1);
    }
    response.history := Remove(response.history, last);
  }

  /** What `init` leaves on a new response: the chain's outcome, and on
      success the first hop's state and a history of this response and the
      responses of the later hops. */
  twostate lemma Initialized(f: GenericResponse, new status: Result<()>, new news: seq<GenericResponse>)
    requires old(f.history) == [] && old(f.connection).None? && old(f.raw).None? && old(f.contents).None?
    requires old(f.encoding).None? && old(f.cookies) == [] && f.revision == Current
    requires old(f.First()) == f && f.First() == f
    requires f.request.stream ==>
      (status == Status(old(f.Attempt())) && f.Connected(f, news) && f.raw == old(f.raw) && f.contents == old(f.contents))
    requires !f.request.stream ==> f.ContentRead(f, status, news)
    requires forall o :: o in news ==> fresh(o)
    ensures var c := Chain(f.platform, f.request, f.request, [], f.budget);
      (status.Ok? <==> c.Ok?) && (c.Err? ==> status == Err(c.error)) &&
      (c.Ok? ==>
        f.history == [f] + news && f !in news && Recorded(c.value[1..], news, [f], f.platform, Current) &&
        f.connection == Some(c.value[0].exchange) && f.cookies == c.value[0].cookies &&
        f.contents == (if f.request.stream then None else Some(Decoded(f.platform, c.value[0].exchange))))
  {
  }

  /** After `init`, the first response's history lists it and the responses
      of the later hops, the last of them occurring only at the end. */
  lemma Settle(first: GenericResponse, hops: seq<Hop>, news: seq<GenericResponse>)
    requires first !in news && first.history == [first] + news
    requires Recorded(hops, news, [first], first.platform, Current)
    ensures var h := first.history; h[|h| - 1] !in h[..|h| - 1]
  {
    var h := first.history;
    if |news| > 0 {
      RecordedDistinct(hops, news, [first], first.platform, Current);
      assert h[..|h| - 1] == [first] + news[..|news| - 1];
    } else {
      assert h[..|h| - 1] == [];
    }
  }

  /** The function of each verb: `request` with the verb's method name. */
  method Call(p: Platform, v: Verb, url: string, s: Settings, budget: nat)
    returns (r: Result<GenericResponse>, ghost first: GenericResponse?, ghost news: seq<GenericResponse>)
    ensures var b := Built(p, ArgumentsOf(MethodName(v), url, s), "");
      (r.Ok? <==> b.Ok? && Chain(p, b.value, b.value, [], budget).Ok?) &&
      (r.Ok? ==> first != null && fresh(first) && first.request == b.value && first.request.httpMethod == MethodName(v))
  {
    r, first, news := Request(p, MethodName(v), url, s, budget);
    if r.Ok? {
      BuiltMethod(p, ArgumentsOf(MethodName(v), url, s));
    }
  }

  /** The built request keeps the method it was given. */
  lemma BuiltMethod(p: Platform, a: Arguments)
    requires Built(p, a, "").Ok?
    ensures Built(p, a, "").value.httpMethod == a.httpMethod
  {
  }

  /** The verb functions send distinct method names; only `head` keeps
      redirects off by default. */
  lemma VerbNames(v: Verb, w: Verb)
    ensures MethodName(v) == MethodName(w) <==> v == w
    ensures AllowRedirects(MethodName(v), Defaults.allowRedirects) <==> v != Head
  {
  }

  /** A `head` with the default settings makes exactly one connection: the
      answer is the first response itself, with an empty history. */
  lemma HeadNoFollow(p: Platform, url: string, budget: nat)
    requires Built(p, ArgumentsOf("HEAD", url, Defaults), "").Ok?
    requires var b := Built(p, ArgumentsOf("HEAD", url, Defaults), "").value;
      Chain(p, b, b, [], budget).Ok?
    ensures var b := Built(p, ArgumentsOf("HEAD", url, Defaults), "").value;
      |Chain(p, b, b, [], budget).value| == 1
  {
    var b := Built(p, ArgumentsOf("HEAD", url, Defaults), "").value;
    assert !b.allowRedirects;
    SingleHop(p, b, [], budget);
  }
}

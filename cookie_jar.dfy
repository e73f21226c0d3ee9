/** `CookieJar`: the cookies a request sends, viewed as a name-to-value map
    and written as a `Cookie` request header `k1=v1; k2=v2` (the form of
    section 4.2.1 of RFC 6265). */
module CookieJars {
  import opened Wrappers
  import opened Text
  import opened OrderedMaps
  import opened Cookies
  import opened CookieRoundTrip

  /** The jar keeps the cookies it was built from, in order and with any
      duplicates; its map view is derived from them. */
  datatype CookieJar = CookieJar(cookies: seq<Cookie>)

  /** `(key, value)` of every cookie, in order. */
  function Pairs(cookies: seq<Cookie>): (r: seq<(string, string)>)
    ensures |r| == |cookies|
    ensures forall i :: 0 <= i < |r| ==> r[i] == (cookies[i].key, cookies[i].value)
  {
    seq(|cookies|, i requires 0 <= i < |cookies| => (cookies[i].key, cookies[i].value))
  }

  /** The map the jar delegates to: `cookies.toMap({ it.key }, { it.value })`. */
  function AsMap(jar: CookieJar): Entries<string, string>
  {
    FromPairs(Pairs(jar.cookies))
  }

  /** The distinct names of the cookies. */
  function Names(cookies: seq<Cookie>): set<string>
  {
    set i | 0 <= i < |cookies| :: cookies[i].key
  }

  /** Viewed as a map, the jar sends a name to the plain value (attributes
      left out) of the last cookie carrying that name, and has no entry for
      other names; it holds one entry per distinct name. */
  lemma AsMapSpec(jar: CookieJar, i: nat)
    requires i < |jar.cookies|
    requires forall j :: i < j < |jar.cookies| ==> jar.cookies[j].key != jar.cookies[i].key
    ensures Get(AsMap(jar), jar.cookies[i].key) == Some(jar.cookies[i].value)
    ensures DistinctKeys(AsMap(jar))
    ensures |AsMap(jar)| == |Names(jar.cookies)|
  {
    var pairs := Pairs(jar.cookies);
    FromPairsSpec(pairs, jar.cookies[i].key);
    LastValueAt(pairs, i);
    NamesAreKeys(jar.cookies);
  }

  /** A name no cookie carries is not in the map view. */
  lemma AsMapAbsent(jar: CookieJar, name: string)
    requires name !in Names(jar.cookies)
    ensures Get(AsMap(jar), name) == None
  {
    var pairs := Pairs(jar.cookies);
    NamesAreKeys(jar.cookies);
    FromPairsSpec(pairs, name);
    LastValueAbsent(pairs, name);
  }

  lemma NamesAreKeys(cookies: seq<Cookie>)
    ensures KeySet(Pairs(cookies)) == Names(cookies)
  {
    var pairs := Pairs(cookies);
    forall x | x in Names(cookies) ensures x in KeySet(pairs) {
      var i :| 0 <= i < |cookies| && cookies[i].key == x;
      assert pairs[i].0 == x;
    }
    forall x | x in KeySet(pairs) ensures x in Names(cookies) {
      var i :| 0 <= i < |pairs| && pairs[i].0 == x;
      assert cookies[i].key == x;
    }
  }

  /** Two cookies with distinct names make a jar of size two. */
  lemma TwoCookies(a: Cookie, b: Cookie)
    requires a.key != b.key
    ensures |AsMap(CookieJar([a, b]))| == 2
  {
    var jar := CookieJar([a, b]);
    AsMapSpec(jar, 1);
    assert Names(jar.cookies) == {a.key, b.key} by {
      assert jar.cookies[0] == a && jar.cookies[1] == b;
    }
  }

  /** The `k=v` text of each cookie, in order. */
  function HeaderPairs(cookies: seq<Cookie>): (r: seq<string>)
    ensures |r| == |cookies|
    ensures forall i :: 0 <= i < |r| ==> r[i] == cookies[i].key + "=" + cookies[i].value
  {
    seq(|cookies|, i requires 0 <= i < |cookies| => cookies[i].key + "=" + cookies[i].value)
  }

  /** `toString()`: every cookie of the array (not of the map) as `k=v`,
      joined by `"; "`. */
  function HeaderText(jar: CookieJar): string
  {
    Join(HeaderPairs(jar.cookies), "; ")
  }

  /** An empty jar writes an empty header value. */
  lemma EmptyHeader()
    ensures HeaderText(CookieJar([])) == ""
  {
    assert HeaderPairs([]) == [];
  }

  /** The header lists the cookie array, so a name given twice is written
      twice although the map view holds it once, with the later value. */
  lemma DuplicateWrittenTwice(a: Cookie, b: Cookie)
    requires a.key == b.key
    ensures HeaderText(CookieJar([a, b])) == a.key + "=" + a.value + "; " + b.key + "=" + b.value
    ensures |AsMap(CookieJar([a, b]))| == 1
    ensures Get(AsMap(CookieJar([a, b])), a.key) == Some(b.value)
  {
    var jar := CookieJar([a, b]);
    var texts := HeaderPairs(jar.cookies);
    assert Join(texts[1..], "; ") == texts[1];
    AsMapSpec(jar, 1);
    assert Names(jar.cookies) == {a.key} by {
      assert jar.cookies[0] == a && jar.cookies[1] == b;
    }
  }

  /** A `k=v` text of two tokens parses back to the cookie without attributes. */
  lemma PairParses(key: string, value: string)
    requires Token(key) && Token(value)
    ensures Parse(key + "=" + value) == Ok(Cookie(key, value, []))
  {
    ParseAt(key, value);
    TrimSpec(key);
    TrimSpec(value);
  }

  /** `k=v` of two tokens is itself free of surrounding whitespace. */
  lemma PairTrimmed(key: string, value: string)
    requires Token(key) && Token(value)
    ensures Trimmed(key + "=" + value)
  {
    var t := key + "=" + value;
    if |key| > 0 { assert t[0] == key[0]; } else { assert t[0] == '='; }
    if |value| > 0 { assert t[|t| - 1] == value[|value| - 1]; } else { assert t[|t| - 1] == '='; }
  }

  /** The pieces `k=v`, ` k=v`, ... the header splits into at `;`. */
  function HeaderPieces(cookies: seq<Cookie>): seq<string>
    requires |cookies| > 0
  {
    var texts := HeaderPairs(cookies);
    [texts[0]] + Spaced(texts[1..])
  }

  lemma HeaderSplits(jar: CookieJar)
    requires forall i :: 0 <= i < |jar.cookies| ==> Token(jar.cookies[i].key) && Token(jar.cookies[i].value)
    requires |jar.cookies| > 0
    ensures Split(HeaderText(jar), ';') == HeaderPieces(jar.cookies)
  {
    var texts := HeaderPairs(jar.cookies);
    var pieces := HeaderPieces(jar.cookies);
    forall i | 0 <= i < |pieces| ensures ';' !in pieces[i] {
      var c := jar.cookies[i];
      assert texts[i] == c.key + "=" + c.value;
      if i > 0 { assert pieces[i] == " " + texts[i]; }
    }
    if |texts| == 1 {
      assert pieces == texts;
    } else {
      JoinSpaced(texts[0], texts[1..]);
      assert texts == [texts[0]] + texts[1..];
    }
    SplitJoin(pieces, ';');
  }

  lemma HeaderPieceParses(cookies: seq<Cookie>, i: nat)
    requires i < |cookies| && Token(cookies[i].key) && Token(cookies[i].value)
    ensures Parse(Trim(HeaderPieces(cookies)[i])) == Ok(Cookie(cookies[i].key, cookies[i].value, []))
  {
    var c := cookies[i];
    var text := c.key + "=" + c.value;
    assert Trim(HeaderPieces(cookies)[i]) == text by {
      PairTrimmed(c.key, c.value);
      PieceTrim(HeaderPieces(cookies)[i], text, i > 0);
    }
    PairParses(c.key, c.value);
  }

  /** A trimmed text, with or without one leading space, trims to itself. */
  lemma PieceTrim(piece: string, text: string, spaced: bool)
    requires Trimmed(text)
    requires piece == if spaced then " " + text else text
    ensures Trim(piece) == text
  {
    if spaced {
      assert piece == " " + text + "";
      TrimPadded(" ", text, "");
    } else {
      TrimSpec(text);
    }
  }

  /** The header of a jar of well-formed cookies splits at `;` into one piece
      per cookie, and each piece, trimmed, parses back to that cookie's name
      and value. */
  lemma HeaderRoundTrip(jar: CookieJar)
    requires forall i :: 0 <= i < |jar.cookies| ==> Token(jar.cookies[i].key) && Token(jar.cookies[i].value)
    requires |jar.cookies| > 0
    ensures |Split(HeaderText(jar), ';')| == |jar.cookies|
    ensures forall i :: 0 <= i < |jar.cookies| ==>
      Parse(Trim(Split(HeaderText(jar), ';')[i])) == Ok(Cookie(jar.cookies[i].key, jar.cookies[i].value, []))
  {
    HeaderSplits(jar);
    forall i | 0 <= i < |jar.cookies|
      ensures Parse(Trim(HeaderPieces(jar.cookies)[i])) == Ok(Cookie(jar.cookies[i].key, jar.cookies[i].value, []))
    {
      HeaderPieceParses(jar.cookies, i);
    }
  }

  /** Every piece of a split, trimmed: `split(";").map { it.trim() }`. */
  function TrimAll(pieces: seq<string>): (r: seq<string>)
    ensures |r| == |pieces| && forall i :: 0 <= i < |r| ==> r[i] == Trim(pieces[i])
  {
    seq(|pieces|, i requires 0 <= i < |pieces| => Trim(pieces[i]))
  }

  /** One entry of the map constructor: the first trimmed `;` piece is the
      value, the others the attributes as `Cookie` parses them. */
  function CookieOf(name: string, text: string): Result<Cookie>
  {
    var pieces := TrimAll(Split(text, ';'));
    var attributes :- if |pieces| < 2 then Ok([]) else ParseAttributes(pieces[1..]);
    Ok(Cookie(name, pieces[0], attributes))
  }

  /** `Map<String, Any>.toCookieArray()`: one cookie per entry, in order; the
      first entry that fails fails the whole construction. */
  function ToCookieArray(m: Entries<string, string>): (r: Result<seq<Cookie>>)
    ensures r.Ok? <==> forall i :: 0 <= i < |m| ==> CookieOf(m[i].0, m[i].1).Ok?
    ensures r.Ok? ==> |r.value| == |m|
    ensures r.Ok? ==> forall i :: 0 <= i < |m| ==> r.value[i] == CookieOf(m[i].0, m[i].1).value
  {
    Traverse(m, (e: (string, string)) => CookieOf(e.0, e.1))
  }

  /** The constructor `CookieJar(cookies: Map<String, Any>)`. */
  function FromMap(m: Entries<string, string>): Result<CookieJar>
  {
    var cookies :- ToCookieArray(m);
    Ok(CookieJar(cookies))
  }

  /** One entry: the cookie is named by the key, its value is the trimmed
      text before the first `;`, it has no attributes when there is no `;`,
      and it fails exactly when a later piece has no `=`. */
  lemma CookieOfSpec(name: string, text: string)
    ensures CookieOf(name, text).Ok? ==>
      CookieOf(name, text).value.key == name && CookieOf(name, text).value.value == Trim(Before(text, ';'))
    ensures ';' !in text ==> CookieOf(name, text) == Ok(Cookie(name, Trim(text), []))
    ensures CookieOf(name, text).Err? <==> !AllHaveEquals(Split(text, ';')[1..])
  {
    CookieOfValue(name, text);
    CookieOfFails(name, text);
  }

  lemma CookieOfValue(name: string, text: string)
    ensures CookieOf(name, text).Ok? ==>
      CookieOf(name, text).value.key == name && CookieOf(name, text).value.value == Trim(Before(text, ';'))
  {
    SplitFront(text, ';');
  }

  lemma CookieOfFails(name: string, text: string)
    ensures CookieOf(name, text).Err? <==> !AllHaveEquals(Split(text, ';')[1..])
  {
    var raw := Split(text, ';');
    if |raw| >= 2 {
      assert CookieOf(name, text).Err? <==> !AllHaveEquals(TrimAll(raw)[1..]);
      TrimAllEquals(raw);
    }
  }

  /** Trimming the pieces changes none of them in having an `=`. */
  lemma TrimAllEquals(raw: seq<string>)
    requires |raw| >= 1
    ensures AllHaveEquals(TrimAll(raw)[1..]) <==> AllHaveEquals(raw[1..])
  {
    var pieces := TrimAll(raw);
    forall k | 0 <= k < |raw| - 1 ensures '=' in pieces[1..][k] <==> '=' in raw[1..][k] {
      TrimKeeps(raw[k + 1], '=');
    }
  }

  /** An entry whose value is a token becomes a cookie with that value and
      no attributes. */
  lemma TokenEntry(name: string, text: string)
    requires Token(text)
    ensures CookieOf(name, text) == Ok(Cookie(name, text, []))
  {
    CookieOfSpec(name, text);
    TrimSpec(text);
  }

  /** A map whose keys are distinct and whose values are well-formed tokens
      goes through the map constructor and back to the same map. */
  lemma MapRoundTrip(m: Entries<string, string>)
    requires DistinctKeys(m)
    requires forall i :: 0 <= i < |m| ==> Token(m[i].1)
    ensures FromMap(m).Ok?
    ensures AsMap(FromMap(m).value) == m
  {
    forall i | 0 <= i < |m| ensures CookieOf(m[i].0, m[i].1) == Ok(Cookie(m[i].0, m[i].1, [])) {
      TokenEntry(m[i].0, m[i].1);
    }
    var cookies := ToCookieArray(m).value;
    assert Pairs(cookies) == m;
    FromDistinctPairs(m);
  }

  /** `CookieJar(map).toString()`: the `Cookie` header value a request sends
      for a map of names to cookie texts. */
  function MapHeader(m: Entries<string, string>): Result<string>
  {
    var jar :- FromMap(m);
    Ok(HeaderText(jar))
  }

  /** A map of token names to token values is sent as one `name=value`
      piece per entry, in order, each of which parses back to the entry. */
  lemma MapHeaderRoundTrip(m: Entries<string, string>)
    requires DistinctKeys(m) && |m| > 0
    requires forall i :: 0 <= i < |m| ==> Token(m[i].0) && Token(m[i].1)
    ensures MapHeader(m).Ok?
    ensures |Split(MapHeader(m).value, ';')| == |m|
    ensures forall i :: 0 <= i < |m| ==>
      Parse(Trim(Split(MapHeader(m).value, ';')[i])) == Ok(Cookie(m[i].0, m[i].1, []))
  {
    forall i | 0 <= i < |m| ensures CookieOf(m[i].0, m[i].1) == Ok(Cookie(m[i].0, m[i].1, [])) {
      TokenEntry(m[i].0, m[i].1);
    }
    var jar := FromMap(m).value;
    HeaderRoundTrip(jar);
  }
}

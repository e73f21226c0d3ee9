/** A cookie parsed from a `Set-Cookie`-style text `key=value; name=val; ...`:
    a key, a value and an insertion-ordered attribute map.  The parser is the
    library's own simplified grammar, not the one of section 4.1.1 of RFC 6265. */
module Cookies {
  import opened Wrappers
  import opened Text
  import opened OrderedMaps

  /** A data class, so equality is structural over all three fields. */
  datatype Cookie = Cookie(key: string, value: string, attributes: Entries<string, string>)

  /** The text before the first `c`, or all of `s` when there is none. */
  function Before(s: string, c: char): (r: string)
    ensures c !in r && r <= s
    ensures c in s ==> |r| < |s| && s[|r|] == c
  {
    if c in s then s[..IndexOf(s, c)] else s
  }

  /** The first piece of a split is the text before the first delimiter. */
  lemma SplitFront(s: string, c: char)
    ensures Split(s, c)[0] == Before(s, c)
  {
    if c in s {
      SplitHead(s, c);
    }
  }

  /** The copy constructor `Cookie(cookie)`. */
  function Copy(c: Cookie): (r: Cookie)
    ensures r == c
  {
    Cookie(c.key, c.value, c.attributes)
  }

  /** One attribute piece: `it.split("=")[0].trim()` to `it.split("=")[1].trim()`.
      The second index fails when the piece has no `=`. */
  function ParseAttribute(piece: string): (r: Result<(string, string)>)
    ensures r.Err? <==> '=' !in piece
    ensures r.Err? ==> r.error == IndexOutOfBounds
    ensures r.Ok? ==> var (name, rest) := SplitFirst(piece, '=').value;
                      r.value == (Trim(name), Trim(Before(rest, '=')))
  {
    var parts := Split(piece, '=');
    assert '=' in piece ==> |parts| >= 2 by {
      if '=' in piece { SplitHead(piece, '='); }
    }
    if |parts| < 2 then Err(IndexOutOfBounds)
    else
      SplitHead(piece, '=');
      SplitFront(SplitFirst(piece, '=').value.1, '=');
      Ok((Trim(parts[0]), Trim(parts[1])))
  }

  predicate AllHaveEquals(pieces: seq<string>)
  {
    forall i :: 0 <= i < |pieces| ==> '=' in pieces[i]
  }

  /** The attribute pairs of the pieces, in order; the first piece without
      `=` fails the whole parse. */
  function AttributePairs(pieces: seq<string>): (r: Result<seq<(string, string)>>)
    ensures r.Err? <==> !AllHaveEquals(pieces)
    ensures r.Err? ==> r.error == IndexOutOfBounds
    ensures r.Ok? ==> |r.value| == |pieces| &&
                      forall i :: 0 <= i < |pieces| ==> ParseAttribute(pieces[i]) == Ok(r.value[i])
  {
    Traverse(pieces, ParseAttribute)
  }

  /** `subList(1, size).toMap(...)`: the attribute map of the pieces after the value. */
  function ParseAttributes(pieces: seq<string>): Result<Entries<string, string>>
  {
    var pairs :- AttributePairs(pieces);
    Ok(FromPairs(pairs))
  }

  /** The message of the `check` that rejects a text without `=`. */
  function NotACookie(s: string): string
  {
    "\"" + s + "\" is not a cookie."
  }

  /** `String.toCookie()` behind the `Cookie(String)` constructor. */
  function Parse(s: string): Result<Cookie>
  {
    match SplitFirst(s, '=')
    case None => Err(IllegalState(NotACookie(s)))
    case Some((key, rest)) =>
      var valueSplit := Split(rest, ';');
      var attributes :- if |valueSplit| < 2 then Ok([]) else ParseAttributes(valueSplit[1..]);
      Ok(Cookie(Trim(key), Trim(valueSplit[0]), attributes))
  }

  /** A text without `=` is not a cookie; otherwise the key is the trimmed
      text before the first `=`, the value the trimmed text from there to the
      first `;`, there are no attributes when no `;` follows, and the parse
      fails exactly when some later `;` piece has no `=`. */
  lemma ParseSpec(s: string)
    ensures Parse(s) == Err(IllegalState(NotACookie(s))) <==> '=' !in s
    ensures Parse(s).Ok? ==>
      var (key, rest) := SplitFirst(s, '=').value;
      Parse(s).value.key == Trim(key) && Parse(s).value.value == Trim(Before(rest, ';'))
    ensures '=' in s && ';' !in SplitFirst(s, '=').value.1 ==> Parse(s).Ok? && Parse(s).value.attributes == []
    ensures '=' in s ==>
      (Parse(s).Err? <==> !AllHaveEquals(Split(SplitFirst(s, '=').value.1, ';')[1..]))
  {
    if '=' in s {
      SplitFront(SplitFirst(s, '=').value.1, ';');
    }
  }

  /** The `name=val` texts of the attributes, in order. */
  function AttributeTexts(attributes: Entries<string, string>): (r: seq<string>)
    ensures |r| == |attributes|
    ensures forall i :: 0 <= i < |r| ==> r[i] == attributes[i].0 + "=" + attributes[i].1
  {
    seq(|attributes|, i requires 0 <= i < |attributes| => attributes[i].0 + "=" + attributes[i].1)
  }

  /** `valueWithAttributes` as written: the attributes joined by the default
      `joinToString` separator `", "`. */
  function ValueWithAttributes(c: Cookie): (r: string)
    ensures |c.attributes| == 0 ==> r == c.value
    ensures |c.attributes| > 0 ==> r == c.value + "; " + Join(AttributeTexts(c.attributes), ", ")
  {
    if |c.attributes| < 1 then c.value
    else c.value + "; " + Join(AttributeTexts(c.attributes), ", ")
  }
}

module CookieRoundTrip {
  import opened Wrappers
  import opened Text
  import opened OrderedMaps
  import opened Cookies

  /** A part that survives the parser unchanged: no `=`, no `;`, and no
      surrounding whitespace. */
  predicate Token(s: string)
  {
    '=' !in s && ';' !in s && Trimmed(s)
  }

  /** A cookie whose every part is a token and whose attribute names are
      distinct: the cookies a server's `Set-Cookie` line can express. */
  predicate WellFormed(c: Cookie)
  {
    && Token(c.key) && Token(c.value)
    && DistinctKeys(c.attributes)
    && forall i :: 0 <= i < |c.attributes| ==> Token(c.attributes[i].0) && Token(c.attributes[i].1)
  }

  /** `valueWithAttributes` with the separator `"; "` that `Set-Cookie`
      uses between attributes (section 4.1.1 of RFC 6265). */
  function ValueWithAttributesIntended(c: Cookie): (r: string)
  {
    if |c.attributes| < 1 then c.value
    else c.value + "; " + Join(AttributeTexts(c.attributes), "; ")
  }

  /** Prefixing every attribute text with a space turns the `"; "` join into
      a `;` join. */
  lemma {:induction false} JoinSpaced(x: string, ts: seq<string>)
    requires |ts| >= 1
    ensures x + "; " + Join(ts, "; ") == Join([x] + Spaced(ts), ";")
    decreases |ts|
  {
    assert ([x] + Spaced(ts))[1..] == Spaced(ts);
    if |ts| == 1 {
      assert Join(Spaced(ts), ";") == " " + ts[0];
    } else {
      JoinSpaced(ts[0], ts[1..]);
      var tail := Join(Spaced(ts[1..]), ";");
      assert Spaced(ts) == [" " + ts[0]] + Spaced(ts[1..]);
      assert Join(Spaced(ts), ";") == " " + ts[0] + ";" + tail;
      assert ([ts[0]] + Spaced(ts[1..]))[1..] == Spaced(ts[1..]);
      calc {
        x + "; " + Join(ts, "; ");
        x + "; " + (ts[0] + "; " + Join(ts[1..], "; "));
        x + "; " + (ts[0] + ";" + tail);
        x + ";" + (" " + ts[0] + ";" + tail);
      }
    }
  }

  function Spaced(ts: seq<string>): (r: seq<string>)
    ensures |r| == |ts| && forall i :: 0 <= i < |ts| ==> r[i] == " " + ts[i]
  {
    seq(|ts|, i requires 0 <= i < |ts| => " " + ts[i])
  }

  /** Each ` name=val` piece of a well-formed cookie parses back to its pair. */
  lemma AttributePiece(name: string, val: string)
    requires Token(name) && Token(val)
    ensures ParseAttribute(" " + (name + "=" + val)) == Ok((name, val))
  {
    var piece := " " + (name + "=" + val);
    assert piece == (" " + name) + ['='] + val;
    SplitFirstAt(" " + name, '=', val);
    assert Trim(" " + name) == name by {
      assert " " + name + "" == " " + name;
      TrimPadded(" ", name, "");
    }
    assert Trim(val) == val by { TrimSpec(val); }
  }

  /** The ` name=val` pieces of well-formed attributes parse back to them. */
  lemma AttributePieces(attributes: Entries<string, string>)
    requires forall i :: 0 <= i < |attributes| ==> Token(attributes[i].0) && Token(attributes[i].1)
    ensures AttributePairs(Spaced(AttributeTexts(attributes))) == Ok(attributes)
  {
    var pieces := Spaced(AttributeTexts(attributes));
    forall i | 0 <= i < |attributes|
      ensures ParseAttribute(pieces[i]) == Ok(attributes[i])
    {
      AttributePiece(attributes[i].0, attributes[i].1);
    }
    TraverseAll(pieces, ParseAttribute, attributes);
  }

  /** `Parse` on a text whose key part has no `=`, in terms of the pieces of
      the rest. */
  lemma ParseAt(key: string, rest: string)
    requires '=' !in key
    ensures Parse(key + "=" + rest) ==
      var pieces := Split(rest, ';');
      if |pieces| < 2 then Ok(Cookie(Trim(key), Trim(pieces[0]), []))
      else match ParseAttributes(pieces[1..])
           case Err(e) => Err(e)
           case Ok(a) => Ok(Cookie(Trim(key), Trim(pieces[0]), a))
  {
    assert key + "=" + rest == key + ['='] + rest;
    SplitFirstAt(key, '=', rest);
  }

  lemma PieceFree(name: string, val: string, ch: char)
    requires ch != '=' && ch != ' ' && ch !in name && ch !in val
    ensures ch !in " " + (name + "=" + val)
  {
  }

  /** The pieces the intended text splits into at `;`. */
  lemma IntendedPieces(c: Cookie)
    requires WellFormed(c) && |c.attributes| > 0
    ensures Split(ValueWithAttributesIntended(c), ';') == [c.value] + Spaced(AttributeTexts(c.attributes))
  {
    var texts := AttributeTexts(c.attributes);
    var pieces := [c.value] + Spaced(texts);
    forall i | 0 <= i < |pieces| ensures ';' !in pieces[i] {
      if i > 0 {
        var a := c.attributes[i - 1];
        PieceFree(a.0, a.1, ';');
        assert pieces[i] == " " + (a.0 + "=" + a.1);
      }
    }
    JoinSpaced(c.value, texts);
    SplitJoin(pieces, ';');
  }

  /** The intended serialisation parses back to the cookie, for every
      well-formed cookie. */
  lemma IntendedRoundTrip(c: Cookie)
    requires WellFormed(c)
    ensures Parse(c.key + "=" + ValueWithAttributesIntended(c)) == Ok(c)
  {
    var v := ValueWithAttributesIntended(c);
    ParseAt(c.key, v);
    TrimSpec(c.key);
    TrimSpec(c.value);
    if |c.attributes| == 0 {
      assert Split(v, ';') == [c.value];
    } else {
      var pieces := Split(v, ';');
      IntendedPieces(c);
      assert pieces[1..] == Spaced(AttributeTexts(c.attributes));
      AttributePieces(c.attributes);
      FromDistinctPairs(c.attributes);
      assert ParseAttributes(pieces[1..]) == Ok(c.attributes);
    }
  }

  /** As written, the text after `key=` splits at `;` into the value and one
      piece holding every attribute, and that piece has an `=`. */
  lemma AsWrittenPieces(c: Cookie)
    requires WellFormed(c) && |c.attributes| >= 1
    ensures var piece := " " + Join(AttributeTexts(c.attributes), ", ");
      Split(ValueWithAttributes(c), ';') == [c.value, piece] && '=' in piece
  {
    var texts := AttributeTexts(c.attributes);
    var tail := Join(texts, ", ");
    forall i | 0 <= i < |texts| ensures ';' !in texts[i] {
      assert texts[i] == c.attributes[i].0 + "=" + c.attributes[i].1;
    }
    NoCharInJoin(texts, ", ", ';');
    var piece := " " + tail;
    assert ValueWithAttributes(c) == Join([c.value, piece], ";");
    SplitJoin([c.value, piece], ';');
    assert '=' in piece by {
      JoinHead(texts, ", ");
      assert texts[0] == c.attributes[0].0 + "=" + c.attributes[0].1;
      assert piece[1 + |c.attributes[0].0|] == '=';
    }
  }

  lemma JoinHead(parts: seq<string>, sep: string)
    requires |parts| >= 1
    ensures Join(parts, sep)[..|parts[0]|] == parts[0]
  {
  }

  /** As written, `valueWithAttributes` glues the second attribute into the
      first one's value: re-parsing `key=valueWithAttributes` of a cookie with
      two or more attributes yields a single attribute. */
  lemma AsWrittenLosesAttributes(c: Cookie)
    requires WellFormed(c) && |c.attributes| >= 2
    ensures Parse(c.key + "=" + ValueWithAttributes(c)).Ok?
    ensures |Parse(c.key + "=" + ValueWithAttributes(c)).value.attributes| == 1
    ensures Parse(c.key + "=" + ValueWithAttributes(c)) != Ok(c)
  {
    var piece := " " + Join(AttributeTexts(c.attributes), ", ");
    AsWrittenPieces(c);
    OnePieceOneAttribute(piece);
    AsWrittenParsed(c);
  }

  /** As written, the parse keeps the key and value and takes its
      attributes from the one piece after the value. */
  lemma AsWrittenParsed(c: Cookie)
    requires WellFormed(c) && |c.attributes| >= 1
    ensures var piece := " " + Join(AttributeTexts(c.attributes), ", ");
      ParseAttributes([piece]).Ok? ==>
        Parse(c.key + "=" + ValueWithAttributes(c)) == Ok(Cookie(c.key, c.value, ParseAttributes([piece]).value))
  {
    var piece := " " + Join(AttributeTexts(c.attributes), ", ");
    AsWrittenPieces(c);
    ParseAt(c.key, ValueWithAttributes(c));
    TrimSpec(c.key);
    TrimSpec(c.value);
    assert Split(ValueWithAttributes(c), ';')[1..] == [piece];
  }

  /** A single piece with an `=` gives a single attribute. */
  lemma OnePieceOneAttribute(piece: string)
    requires '=' in piece
    ensures ParseAttributes([piece]).Ok? && |ParseAttributes([piece]).value| == 1
  {
    assert AllHaveEquals([piece]);
    var pairs := AttributePairs([piece]).value;
    assert pairs == [pairs[0]];
    SinglePair(pairs[0]);
  }

  lemma {:induction false} NoCharInJoin(parts: seq<string>, sep: string, c: char)
    requires c !in sep
    requires forall i :: 0 <= i < |parts| ==> c !in parts[i]
    ensures c !in Join(parts, sep)
  {
    if |parts| > 1 {
      NoCharInJoin(parts[1..], sep, c);
    }
  }

  /** With a single attribute the separator never shows, so the written and
      the intended serialisations agree. */
  lemma SingleAttributeAgrees(c: Cookie)
    requires |c.attributes| == 1
    ensures ValueWithAttributes(c) == ValueWithAttributesIntended(c)
  {
    var texts := AttributeTexts(c.attributes);
    assert Join(texts, "; ") == texts[0] == Join(texts, ", ");
  }

  /** A cookie with one attribute serialises to `value; name=val`. */
  lemma OneAttributeText(key: string, value: string, name: string, val: string)
    ensures ValueWithAttributes(Cookie(key, value, [(name, val)])) == value + "; " + name + "=" + val
  {
    var texts := AttributeTexts([(name, val)]);
    assert texts == [name + "=" + val];
    assert Join(texts, ", ") == name + "=" + val;
  }

  /** ... and round-trips exactly through the as-written serialisation. */
  lemma OneAttributeRoundTrip(key: string, value: string, name: string, val: string)
    requires Token(key) && Token(value) && Token(name) && Token(val)
    ensures Parse(key + "=" + ValueWithAttributes(Cookie(key, value, [(name, val)])))
            == Ok(Cookie(key, value, [(name, val)]))
  {
    var c := Cookie(key, value, [(name, val)]);
    assert WellFormed(c);
    IntendedRoundTrip(c);
    SingleAttributeAgrees(c);
  }
}

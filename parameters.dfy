/** `Parameters`: a string-to-string map written as a query string or a form
    body `k1=v1&k2=v2`, with every value URL-encoded and every key verbatim. */
module ParameterEncoding {
  import opened Wrappers
  import opened Text
  import opened OrderedMaps
  import opened UrlEncoding

  /** The map the class delegates to. */
  datatype Parameters = Parameters(entries: Entries<string, string>)

  /** The vararg constructor `Parameters(vararg pairs)`: `mapOf(*pairs)`. */
  function OfPairs(pairs: seq<(string, string)>): Parameters
  {
    Parameters(FromPairs(pairs))
  }

  /** The constructor `Parameters(map)`: the map's pairs, in order. */
  function OfMap(m: Entries<string, string>): Parameters
  {
    OfPairs(m)
  }

  /** One `key=encode(value)` field. */
  function Field(entry: (string, string)): string
  {
    entry.0 + "=" + Encode(entry.1)
  }

  function Fields(entries: Entries<string, string>): (r: seq<string>)
    ensures |r| == |entries| && forall i :: 0 <= i < |r| ==> r[i] == Field(entries[i])
  {
    seq(|entries|, i requires 0 <= i < |entries| => Field(entries[i]))
  }

  /** The fields of the map, in order, joined by `&`. */
  function QueryText(entries: Entries<string, string>): string
  {
    Join(Fields(entries), "&")
  }

  lemma FieldsSnoc(entries: Entries<string, string>, i: nat)
    requires i < |entries|
    ensures Fields(entries[..i + 1]) == Fields(entries[..i]) + [Field(entries[i])]
  {
  }

  /** `Parameters.toString()`: the map's fields in iteration order, an `&`
      before every field but the first; nothing for an empty map. */
  method ToString(p: Parameters) returns (r: string)
    ensures r == QueryText(p.entries)
  {
    var entries := p.entries;
    if |entries| < 1 {
      return "";
    }
    var builder := "";
    var i := 0;
    while i < |entries|
      invariant 0 <= i <= |entries|
      invariant builder == QueryText(entries[..i])
      invariant i > 0 <==> |builder| > 0
    {
      var (key, value) := entries[i];
      FieldsSnoc(entries, i);
      if |builder| > 0 {
        JoinSnoc(Fields(entries[..i]), Field(entries[i]), "&");
        builder := builder + "&";
      } else {
        assert entries[..i + 1] == [entries[i]];
      }
      builder := builder + key + "=" + Encode(value);
      i := i + 1;
    }
    assert entries[..i] == entries;
    r := builder;
  }

  /** `makeParams(parameters)` of the first request class: `?` before the
      first field and `&` before every other one; nothing for an empty map. */
  method MakeParams(p: Parameters) returns (r: string)
    ensures r == if |p.entries| == 0 then "" else "?" + QueryText(p.entries)
  {
    var entries := p.entries;
    if |entries| < 1 {
      return "";
    }
    var builder := "";
    var i := 0;
    while i < |entries|
      invariant 0 <= i <= |entries|
      invariant builder == if i == 0 then "" else "?" + QueryText(entries[..i])
      invariant i > 0 <==> |builder| > 0
    {
      var (key, value) := entries[i];
      var field := key + "=" + Encode(value);
      FieldsSnoc(entries, i);
      if |builder| < 1 {
        assert entries[..i + 1] == [entries[i]];
        builder := builder + "?";
        builder := builder + field;
      } else {
        JoinSnoc(Fields(entries[..i]), field, "&");
        assert builder + "&" + field == "?" + (QueryText(entries[..i]) + "&" + field);
        builder := builder + "&";
        builder := builder + field;
      }
      i := i + 1;
    }
    assert entries[..i] == entries;
    r := builder;
  }

  /** The empty map is written as nothing. */
  lemma EmptyQuery()
    ensures QueryText([]) == ""
  {
    assert Fields([]) == [];
  }

  /** Keys that can be read back from a query: no `&` or `=` in them. */
  predicate PlainKeys(entries: Entries<string, string>)
  {
    forall i :: 0 <= i < |entries| ==> '&' !in entries[i].0 && '=' !in entries[i].0
  }

  /** The query splits at `&` into exactly the fields, so it holds one `&`
      fewer than there are entries: no leading or trailing separator. */
  lemma QuerySplit(entries: Entries<string, string>)
    requires |entries| > 0 && PlainKeys(entries)
    ensures Split(QueryText(entries), '&') == Fields(entries)
    ensures Count(QueryText(entries), '&') == |entries| - 1
  {
    var fields := Fields(entries);
    forall i | 0 <= i < |fields| ensures '&' !in fields[i] {
      EncodeChars(entries[i].1);
    }
    SplitJoin(fields, '&');
    SplitCount(QueryText(entries), '&');
  }

  /** Reading a query back: each `&` piece split at its first `=` into the
      key and the decoded value. */
  function ParseQuery(t: string): Option<Entries<string, string>>
  {
    ParseFields(Split(t, '&'))
  }

  function ParseFields(pieces: seq<string>): Option<Entries<string, string>>
  {
    if |pieces| == 0 then Some([])
    else
      match SplitFirst(pieces[0], '=')
      case None => None
      case Some((key, encoded)) =>
        match Decode(encoded)
        case None => None
        case Some(value) =>
          match ParseFields(pieces[1..])
          case None => None
          case Some(rest) => Some([(key, value)] + rest)
  }

  lemma {:induction false} ParseFieldsOf(entries: Entries<string, string>)
    requires PlainKeys(entries)
    ensures ParseFields(Fields(entries)) == Some(entries)
  {
    if |entries| > 0 {
      var (key, value) := entries[0];
      SplitFirstAt(key, '=', Encode(value));
      assert Field(entries[0]) == key + ['='] + Encode(value);
      DecodeEncode(value);
      assert Fields(entries)[1..] == Fields(entries[1..]);
      ParseFieldsOf(entries[1..]);
      assert [entries[0]] + entries[1..] == entries;
    }
  }

  /** Every key and every value survives the query: reading the text back
      gives the map, keys as they were and values decoded. */
  lemma QueryRoundTrip(entries: Entries<string, string>)
    requires |entries| > 0 && PlainKeys(entries)
    ensures ParseQuery(QueryText(entries)) == Some(entries)
  {
    QuerySplit(entries);
    ParseFieldsOf(entries);
  }

  /** Lookups return the last value given for a key, and there are as many
      entries as distinct keys, so a repeated key collapses. */
  lemma OfPairsSpec(pairs: seq<(string, string)>, k: string)
    ensures Get(OfPairs(pairs).entries, k) == LastValue(pairs, k)
    ensures |OfPairs(pairs).entries| == |KeySet(pairs)|
  {
    FromPairsSpec(pairs, k);
  }

  /** A key given twice keeps one entry, with the later value. */
  lemma DuplicateCollapses(k: string, a: string, b: string)
    ensures OfPairs([(k, a), (k, b)]).entries == [(k, b)]
  {
    var pairs := [(k, a), (k, b)];
    assert Put<string, string>([], k, a) == [(k, a)];
    assert PutAll<string, string>([], pairs) == PutAll([(k, a)], pairs[1..]);
    assert pairs[1..] == [(k, b)];
    assert Put([(k, a)], k, b) == [(k, b)];
    assert PutAll([(k, a)], [(k, b)]) == PutAll([(k, b)], []);
  }

  /** The map constructor keeps a map as it is. */
  lemma OfMapKeeps(m: Entries<string, string>)
    requires DistinctKeys(m)
    ensures OfMap(m).entries == m
  {
    FromDistinctPairs(m);
  }

  /** `{test: value, jest: lalue}` is written `test=value&jest=lalue`. */
  lemma Example()
    ensures QueryText([("test", "value"), ("jest", "lalue")]) == "test=value&jest=lalue"
  {
    EncodeUnreserved("value");
    EncodeUnreserved("lalue");
    var fields := Fields([("test", "value"), ("jest", "lalue")]);
    assert fields[0] == "test" + "=" + "value" == "test=value";
    assert fields[1] == "jest" + "=" + "lalue" == "jest=lalue";
    assert Join(fields[1..], "&") == "jest=lalue";
  }
}

/** `CaseInsensitiveMap`: a read-only view of a string-keyed map whose
    lookups ignore the case of the key, while the stored keys, the size and
    the text of the map stay those of the backing map.  A Java map can hold
    a `null` key (the status line of an `HttpURLConnection`'s header fields);
    here that key is `None`. */
module HeaderMaps {
  import opened Wrappers
  import opened Text
  import OrderedMaps

  type Key = Option<string>

  datatype CaseInsensitiveMap<V> = CaseInsensitiveMap(backing: OrderedMaps.Entries<Key, V>)

  /** Whether a stored key answers a lookup for `key`: the stored key is
      compared, ignoring case, with `key.toString().toLowerCase()`.  A `null`
      stored key answers no string. */
  predicate Matches(stored: Key, key: string)
  {
    stored.Some? && EqualsIgnoreCase(stored.value, ToLower(key))
  }

  /** `keySet().any { ... }`. */
  predicate AnyMatches<V>(entries: OrderedMaps.Entries<Key, V>, key: string)
    decreases |entries|
  {
    |entries| > 0 && (Matches(entries[0].0, key) || AnyMatches(entries[1..], key))
  }

  /** `filter { ... }.map { it.value }`: the values of the matching entries,
      in iteration order. */
  function MatchingValues<V>(entries: OrderedMaps.Entries<Key, V>, key: string): seq<V>
    decreases |entries|
  {
    if |entries| == 0 then []
    else if Matches(entries[0].0, key) then [entries[0].1] + MatchingValues(entries[1..], key)
    else MatchingValues(entries[1..], key)
  }

  /** `containsKey`: a `null` key is asked of the backing map. */
  predicate ContainsKey<V>(m: CaseInsensitiveMap<V>, key: Key)
  {
    match key
    case None => None in OrderedMaps.KeySet(m.backing)
    case Some(k) => AnyMatches(m.backing, k)
  }

  /** `get`: a `null` key is asked of the backing map; otherwise the first
      matching value, if any (`firstOrNull`). */
  function Get<V>(m: CaseInsensitiveMap<V>, key: Key): Option<V>
  {
    match key
    case None => OrderedMaps.Get(m.backing, None)
    case Some(k) =>
      var values := MatchingValues(m.backing, k);
      if |values| == 0 then None else Some(values[0])
  }

  /** `size`, delegated. */
  function Size<V>(m: CaseInsensitiveMap<V>): nat
  {
    |m.backing|
  }

  /** `keys`, delegated: the stored keys as they are, not lower-cased. */
  function Keys<V>(m: CaseInsensitiveMap<V>): set<Key>
  {
    OrderedMaps.KeySet(m.backing)
  }

  /** `AbstractMap.toString()` of the backing map, `{k1=v1, k2=v2}`, with a
      `null` key written as `null`. */
  function ToString(m: CaseInsensitiveMap<string>): string
  {
    "{" + EntriesText(m.backing) + "}"
  }

  function KeyText(k: Key): string
  {
    match k
    case None => "null"
    case Some(s) => s
  }

  function EntriesText(entries: OrderedMaps.Entries<Key, string>): string
    decreases |entries|
  {
    if |entries| == 0 then ""
    else
      var head := KeyText(entries[0].0) + "=" + entries[0].1;
      if |entries| == 1 then head else head + ", " + EntriesText(entries[1..])
  }

  /** The first entry, in iteration order, whose stored key answers `key`. */
  predicate FirstMatchAt<V>(entries: OrderedMaps.Entries<Key, V>, key: string, i: nat)
  {
    i < |entries| && Matches(entries[i].0, key) &&
    forall j :: 0 <= j < i ==> !Matches(entries[j].0, key)
  }

  lemma {:induction false} MatchingValuesSpec<V>(entries: OrderedMaps.Entries<Key, V>, key: string)
    ensures |MatchingValues(entries, key)| > 0 <==> AnyMatches(entries, key)
    ensures AnyMatches(entries, key) <==> exists i :: 0 <= i < |entries| && Matches(entries[i].0, key)
    ensures forall i: nat :: FirstMatchAt(entries, key, i) ==> MatchingValues(entries, key)[0] == entries[i].1
    decreases |entries|
  {
    if |entries| > 0 {
      var rest := entries[1..];
      MatchingValuesSpec(rest, key);
      forall i | 0 <= i < |rest| ensures rest[i] == entries[i + 1] { }
      if !Matches(entries[0].0, key) {
        forall i: nat | FirstMatchAt(entries, key, i) ensures i > 0 && FirstMatchAt(rest, key, i - 1) {
          assert i != 0;
          forall j | 0 <= j < i - 1 ensures !Matches(rest[j].0, key) {
            assert rest[j] == entries[j + 1];
          }
        }
        if exists i :: 0 <= i < |entries| && Matches(entries[i].0, key) {
          var i :| 0 <= i < |entries| && Matches(entries[i].0, key);
          assert Matches(rest[i - 1].0, key);
        }
      }
    }
  }

  /** `get` of a string key returns the value of the first entry whose stored
      key equals it ignoring case, and nothing when no stored key does. */
  lemma GetSpec<V>(m: CaseInsensitiveMap<V>, key: string)
    ensures Get(m, Some(key)).None? <==> forall i :: 0 <= i < |m.backing| ==> !Matches(m.backing[i].0, key)
    ensures forall i: nat :: FirstMatchAt(m.backing, key, i) ==> Get(m, Some(key)) == Some(m.backing[i].1)
  {
    MatchingValuesSpec(m.backing, key);
  }

  /** `containsKey` and `get` agree, for a `null` key as for any other. */
  lemma ContainsKeyGet<V>(m: CaseInsensitiveMap<V>, key: Key)
    ensures ContainsKey(m, key) <==> Get(m, key).Some?
  {
    if key.Some? {
      MatchingValuesSpec(m.backing, key.value);
    }
  }

  /** Whether a stored key answers a lookup depends on the key only up to
      case. */
  lemma MatchesIgnoresCase(stored: Key, a: string, b: string)
    requires ToLower(a) == ToLower(b)
    ensures Matches(stored, a) <==> Matches(stored, b)
  {
  }

  /** Lookups ignore case: two keys that differ only in case find the same
      value, and both are or are not contained. */
  lemma {:induction false} CaseBlind<V>(m: CaseInsensitiveMap<V>, a: string, b: string)
    requires ToLower(a) == ToLower(b)
    ensures Get(m, Some(a)) == Get(m, Some(b))
    ensures ContainsKey(m, Some(a)) <==> ContainsKey(m, Some(b))
  {
    SameMatches(m.backing, a, b);
    ContainsKeyGet(m, Some(a));
    ContainsKeyGet(m, Some(b));
  }

  lemma {:induction false} SameMatches<V>(entries: OrderedMaps.Entries<Key, V>, a: string, b: string)
    requires ToLower(a) == ToLower(b)
    ensures MatchingValues(entries, a) == MatchingValues(entries, b)
    decreases |entries|
  {
    if |entries| > 0 {
      MatchesIgnoresCase(entries[0].0, a, b);
      SameMatches(entries[1..], a, b);
    }
  }

  /** Stored string keys that are pairwise distinct even ignoring case: the
      shape of a map built with one spelling per name. */
  predicate CaseDistinct<V>(entries: OrderedMaps.Entries<Key, V>)
  {
    forall i, j :: 0 <= i < j < |entries| && entries[i].0.Some? && entries[j].0.Some? ==>
      ToLower(entries[i].0.value) != ToLower(entries[j].0.value)
  }

  /** A stored entry is found under its own key and under every spelling of
      it that differs only in case, with the stored value. */
  lemma StoredFound<V>(m: CaseInsensitiveMap<V>, i: nat, key: string)
    requires CaseDistinct(m.backing)
    requires i < |m.backing| && m.backing[i].0.Some?
    requires ToLower(key) == ToLower(m.backing[i].0.value)
    ensures Get(m, Some(key)) == Some(m.backing[i].1)
    ensures ContainsKey(m, Some(key))
  {
    var stored := m.backing[i].0.value;
    assert ToLower(ToLower(key)) == ToLower(key);
    forall j | 0 <= j < i ensures !Matches(m.backing[j].0, key) {
      assert ToLower(ToLower(key)) == ToLower(stored);
    }
    assert FirstMatchAt(m.backing, key, i);
    GetSpec(m, key);
    ContainsKeyGet(m, Some(key));
  }

  /** The `null` key finds the backing map's `null` entry. */
  lemma NullKey<V>(m: CaseInsensitiveMap<V>, v: V)
    requires OrderedMaps.DistinctKeys(m.backing) && (None, v) in m.backing
    ensures Get(m, None) == Some(v)
    ensures ContainsKey(m, None)
  {
    var i :| 0 <= i < |m.backing| && m.backing[i] == (None, v);
    assert m.backing[i].0 in OrderedMaps.KeySet(m.backing);
    NullKeyAt(m.backing, i);
  }

  lemma {:induction false} NullKeyAt<V>(entries: OrderedMaps.Entries<Key, V>, i: nat)
    requires OrderedMaps.DistinctKeys(entries) && i < |entries| && entries[i].0 == None
    ensures OrderedMaps.Get(entries, None) == Some(entries[i].1)
    decreases |entries|
  {
    if i > 0 {
      var rest := entries[1..];
      assert rest[i - 1] == entries[i];
      NullKeyAt(rest, i - 1);
    }
  }

  /** The view stores nothing of its own: with keys distinct, its size is the
      number of stored keys, which keep their spelling, and its text is the
      backing entries' text. */
  lemma Delegated(m: CaseInsensitiveMap<string>)
    requires OrderedMaps.DistinctKeys(m.backing)
    ensures Size(m) == |Keys(m)|
    ensures forall i :: 0 <= i < |m.backing| ==> m.backing[i].0 in Keys(m)
    ensures |m.backing| == 1 ==> ToString(m) == "{" + KeyText(m.backing[0].0) + "=" + m.backing[0].1 + "}"
  {
    OrderedMaps.DistinctSize(m.backing);
  }

  /** The example map `{a=b, c=d}`: `get("a")` and `get("A")` both give `b`,
      and `containsKey("C")` holds. */
  lemma Example()
    ensures var m := CaseInsensitiveMap([(Some("a"), "b"), (Some("c"), "d")]);
      Get(m, Some("A")) == Get(m, Some("a")) == Some("b") && ContainsKey(m, Some("C"))
  {
    var m := CaseInsensitiveMap([(Some("a"), "b"), (Some("c"), "d")]);
    assert ToLower("a") == "a" && ToLower("A") == "a";
    assert ToLower("c") == "c" && ToLower("C") == "c";
    assert CaseDistinct(m.backing);
    StoredFound(m, 0, "a");
    StoredFound(m, 0, "A");
    StoredFound(m, 1, "C");
  }
}

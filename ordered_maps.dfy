/** Insertion-ordered maps, as the `LinkedHashMap`s that Kotlin's `mapOf`,
    `toMap`, `toLinkedMap` and `Map + Map` build: a sequence of entries with
    pairwise distinct keys.  Re-putting a key replaces its value in place and
    keeps its first position. */
module OrderedMaps {
  import opened Wrappers

  type Entries<K, V> = seq<(K, V)>

  predicate DistinctKeys<K(==,!new), V>(m: Entries<K, V>)
  {
    forall i, j :: 0 <= i < j < |m| ==> m[i].0 != m[j].0
  }

  function KeySet<K(==,!new), V>(m: Entries<K, V>): set<K>
  {
    set i | 0 <= i < |m| :: m[i].0
  }

  lemma KeySetCons<K(!new), V>(m: Entries<K, V>)
    requires |m| > 0
    ensures KeySet(m) == {m[0].0} + KeySet(m[1..])
  {
    forall x | x in KeySet(m) ensures x in {m[0].0} + KeySet(m[1..]) {
      var i :| 0 <= i < |m| && m[i].0 == x;
      if i > 0 { assert m[1..][i - 1].0 == x; }
    }
    forall x | x in KeySet(m[1..]) ensures x in KeySet(m) {
      var i :| 0 <= i < |m[1..]| && m[1..][i].0 == x;
      assert m[i + 1].0 == x;
    }
  }

  /** `get`: the value of the first entry with key `k`. */
  function Get<K(==,!new), V>(m: Entries<K, V>, k: K): (r: Option<V>)
    ensures r.Some? <==> k in KeySet(m)
    ensures r.Some? ==> (k, r.value) in m
  {
    if |m| == 0 then None
    else if m[0].0 == k then Some(m[0].1)
    else
      KeySetCons(m);
      Get(m[1..], k)
  }

  /** `put` / `[k] = v`. */
  function Put<K(==,!new), V>(m: Entries<K, V>, k: K, v: V): (r: Entries<K, V>)
  {
    if |m| == 0 then [(k, v)]
    else if m[0].0 == k then [(k, v)] + m[1..]
    else [m[0]] + Put(m[1..], k, v)
  }

  /** A put adds its key to the keys. */
  lemma {:induction false} PutKeys<K(!new), V>(m: Entries<K, V>, k: K, v: V)
    ensures KeySet(Put(m, k, v)) == KeySet(m) + {k}
  {
    var r := Put(m, k, v);
    if |m| == 0 {
      assert r[0].0 == k;
    } else if m[0].0 == k {
      KeySetCons(m);
      KeySetCons(r);
      assert r[1..] == m[1..];
    } else {
      PutKeys(m[1..], k, v);
      KeySetCons(m);
      KeySetCons(r);
      assert r[1..] == Put(m[1..], k, v);
    }
  }

  /** After a put, `k` maps to `v` and every other key is unchanged; distinct
      keys stay distinct. */
  lemma PutGet<K(!new), V>(m: Entries<K, V>, k: K, v: V)
    ensures Get(Put(m, k, v), k) == Some(v)
    ensures forall k' :: k' != k ==> Get(Put(m, k, v), k') == Get(m, k')
    ensures DistinctKeys(m) ==> DistinctKeys(Put(m, k, v))
  {
    PutValues(m, k, v);
    if DistinctKeys(m) {
      PutDistinct(m, k, v);
    }
  }

  /** The values a put leaves behind. */
  lemma {:induction false} PutValues<K(!new), V>(m: Entries<K, V>, k: K, v: V)
    ensures Get(Put(m, k, v), k) == Some(v)
    ensures forall k' :: k' != k ==> Get(Put(m, k, v), k') == Get(m, k')
  {
    if |m| > 0 && m[0].0 != k {
      PutValues(m[1..], k, v);
    }
  }

  /** A put keeps keys distinct. */
  lemma {:induction false} PutDistinct<K(!new), V>(m: Entries<K, V>, k: K, v: V)
    requires DistinctKeys(m)
    ensures DistinctKeys(Put(m, k, v))
  {
    if |m| > 0 && m[0].0 != k {
      PutDistinct(m[1..], k, v);
      var r := Put(m, k, v);
      assert r[1..] == Put(m[1..], k, v);
      KeySetCons(m);
      PutKeys(m[1..], k, v);
      assert m[0].0 !in KeySet(m[1..]);
      assert m[0].0 !in KeySet(r[1..]);
      forall i, j | 0 <= i < j < |r| ensures r[i].0 != r[j].0 {
        if i == 0 {
          assert r[1..][j - 1].0 == r[j].0;
        } else {
          assert r[1..][i - 1] == r[i] && r[1..][j - 1] == r[j];
        }
      }
    }
  }

  /** Putting a present key keeps the key order; putting a new key appends. */
  lemma {:induction false} PutShape<K(!new), V>(m: Entries<K, V>, k: K, v: V)
    ensures k in KeySet(m) ==> |Put(m, k, v)| == |m| && forall i :: 0 <= i < |m| ==> Put(m, k, v)[i].0 == m[i].0
    ensures k !in KeySet(m) ==> Put(m, k, v) == m + [(k, v)]
  {
    if |m| > 0 && m[0].0 != k {
      KeySetCons(m);
      PutShape(m[1..], k, v);
    }
  }

  /** A second put of the same key leaves what a single put of the second
      value would. */
  lemma {:induction false} PutPut<K(!new), V>(m: Entries<K, V>, k: K, a: V, b: V)
    ensures Put(Put(m, k, a), k, b) == Put(m, k, b)
  {
    if |m| > 0 && m[0].0 != k {
      var once := Put(m, k, a);
      assert once[0] == m[0] && once[1..] == Put(m[1..], k, a);
      PutPut(m[1..], k, a, b);
    }
  }

  /** The keys of `m`, in order, open the keys of `r`. */
  predicate KeysPrefix<K(==), V>(m: Entries<K, V>, r: Entries<K, V>)
  {
    |m| <= |r| && forall i :: 0 <= i < |m| ==> r[i].0 == m[i].0
  }

  /** A put moves no key: the old keys keep their places. */
  lemma PutKeysPrefix<K(!new), V>(m: Entries<K, V>, k: K, v: V)
    ensures KeysPrefix(m, Put(m, k, v))
  {
    PutShape(m, k, v);
  }

  /** `putAll(other)`, and `m + other`: the entries of `other` put in order. */
  function PutAll<K(==,!new), V>(m: Entries<K, V>, other: Entries<K, V>): (r: Entries<K, V>)
    decreases |other|
  {
    if |other| == 0 then m
    else PutAll(Put(m, other[0].0, other[0].1), other[1..])
  }

  /** The keys after `putAll` are the old keys and those of `other`. */
  lemma {:induction false} PutAllKeys<K(!new), V>(m: Entries<K, V>, other: Entries<K, V>)
    ensures KeySet(PutAll(m, other)) == KeySet(m) + KeySet(other)
    decreases |other|
  {
    if |other| > 0 {
      KeySetCons(other);
      PutKeys(m, other[0].0, other[0].1);
      PutAllKeys(Put(m, other[0].0, other[0].1), other[1..]);
    }
  }

  lemma {:induction false} PutAllDistinct<K(!new), V>(m: Entries<K, V>, other: Entries<K, V>)
    requires DistinctKeys(m)
    ensures DistinctKeys(PutAll(m, other))
    decreases |other|
  {
    if |other| > 0 {
      PutGet(m, other[0].0, other[0].1);
      PutAllDistinct(Put(m, other[0].0, other[0].1), other[1..]);
    }
  }

  /** `mapOf(*pairs)` / `toMap`: later pairs override earlier ones. */
  function FromPairs<K(==,!new), V>(pairs: seq<(K, V)>): (r: Entries<K, V>)
  {
    PutAll([], pairs)
  }

  /** One pair makes a map of one entry. */
  lemma SinglePair<K(!new), V>(pair: (K, V))
    ensures FromPairs([pair]) == [pair]
  {
    assert [pair][1..] == [];
    assert Put([], pair.0, pair.1) == [pair];
    assert PutAll([(pair.0, pair.1)], []) == [pair];
  }

  /** The value of the last pair with key `k`. */
  function LastValue<K(==,!new), V>(pairs: seq<(K, V)>, k: K): Option<V>
  {
    if |pairs| == 0 then None
    else if pairs[|pairs| - 1].0 == k then Some(pairs[|pairs| - 1].1)
    else LastValue(pairs[..|pairs| - 1], k)
  }

  /** A pair with no later pair of the same key gives the last value. */
  lemma {:induction false} LastValueAt<K(!new), V>(pairs: seq<(K, V)>, i: nat)
    requires i < |pairs|
    requires forall j :: i < j < |pairs| ==> pairs[j].0 != pairs[i].0
    ensures LastValue(pairs, pairs[i].0) == Some(pairs[i].1)
    decreases |pairs|
  {
    var n := |pairs|;
    if i < n - 1 {
      assert forall j :: i < j < n - 1 ==> pairs[..n - 1][j] == pairs[j];
      LastValueAt(pairs[..n - 1], i);
    }
  }

  /** A key no pair carries has no last value. */
  lemma {:induction false} LastValueAbsent<K(!new), V>(pairs: seq<(K, V)>, k: K)
    requires k !in KeySet(pairs)
    ensures LastValue(pairs, k).None?
    decreases |pairs|
  {
    var n := |pairs|;
    if n > 0 {
      assert pairs[n - 1].0 in KeySet(pairs);
      var prefix := pairs[..n - 1];
      forall j | 0 <= j < n - 1 ensures prefix[j].0 != k {
        assert pairs[j].0 in KeySet(pairs);
      }
      LastValueAbsent(prefix, k);
    }
  }

  /** After `putAll`, a key takes the last value `other` gives it, if any,
      and keeps its old value otherwise. */
  lemma {:induction false} PutAllGet<K(!new), V>(m: Entries<K, V>, other: Entries<K, V>, k: K)
    ensures Get(PutAll(m, other), k) == if LastValue(other, k).Some? then LastValue(other, k) else Get(m, k)
    decreases |other|
  {
    if |other| > 0 {
      var m' := Put(m, other[0].0, other[0].1);
      PutGet(m, other[0].0, other[0].1);
      PutAllGet(m', other[1..], k);
      LastValueCons(other, k);
    }
  }

  lemma {:induction false} LastValueCons<K(!new), V>(pairs: seq<(K, V)>, k: K)
    requires |pairs| > 0
    ensures LastValue(pairs, k) ==
      if LastValue(pairs[1..], k).Some? then LastValue(pairs[1..], k)
      else if pairs[0].0 == k then Some(pairs[0].1) else None
    decreases |pairs|
  {
    if |pairs| > 1 {
      var n := |pairs|;
      if pairs[n - 1].0 != k {
        assert pairs[..n - 1][1..] == pairs[1..][..n - 2];
        LastValueCons(pairs[..n - 1], k);
      }
    }
  }

  /** Putting entries whose keys are new and distinct appends them. */
  lemma {:induction false} PutAllFresh<K(!new), V>(m: Entries<K, V>, other: Entries<K, V>)
    requires DistinctKeys(other) && KeySet(m) !! KeySet(other)
    ensures PutAll(m, other) == m + other
    decreases |other|
  {
    if |other| > 0 {
      KeySetCons(other);
      PutShape(m, other[0].0, other[0].1);
      PutKeys(m, other[0].0, other[0].1);
      var m' := m + [other[0]];
      assert KeySet(m') == KeySet(m) + {other[0].0};
      assert forall j :: 0 <= j < |other[1..]| ==> other[1..][j].0 != other[0].0;
      PutAllFresh(m', other[1..]);
      assert m' + other[1..] == m + other;
    }
  }

  /** Pairs with distinct keys are already a map. */
  lemma FromDistinctPairs<K(!new), V>(pairs: seq<(K, V)>)
    requires DistinctKeys(pairs)
    ensures FromPairs(pairs) == pairs
  {
    PutAllFresh([], pairs);
  }

  /** Pairs made into a map: each key maps to its last value, and there are
      as many entries as distinct keys. */
  lemma FromPairsSpec<K(!new), V>(pairs: seq<(K, V)>, k: K)
    ensures Get(FromPairs(pairs), k) == LastValue(pairs, k)
    ensures DistinctKeys(FromPairs(pairs))
    ensures |FromPairs(pairs)| == |KeySet(pairs)|
  {
    PutAllGet([], pairs, k);
    PutAllDistinct([], pairs);
    PutAllKeys([], pairs);
    assert KeySet<K, V>([]) == {};
    DistinctSize(FromPairs(pairs));
  }

  /** With distinct keys, the number of entries is the number of keys. */
  lemma {:induction false} DistinctSize<K(!new), V>(m: Entries<K, V>)
    requires DistinctKeys(m)
    ensures |m| == |KeySet(m)|
  {
    if |m| > 0 {
      DistinctSize(m[1..]);
      KeySetCons(m);
      assert m[0].0 !in KeySet(m[1..]);
    }
  }

  /** `AbstractMap.toString()`: `{k1=v1, k2=v2}`. */
  function MapText(m: Entries<string, string>): string
  {
    "{" + EntriesText(m) + "}"
  }

  function EntriesText(m: Entries<string, string>): string
  {
    if |m| == 0 then ""
    else if |m| == 1 then m[0].0 + "=" + m[0].1
    else m[0].0 + "=" + m[0].1 + ", " + EntriesText(m[1..])
  }
}

/** A JavaScript `Map` as an association list: keys in insertion order, each with its
    value. Only the operations the entity collector uses are modelled. */
module OrderedMap {
  import opened JsValues
  import opened Seqs

  type AssocList<K, V> = seq<(K, V)>

  /** `Array.from(m.keys())`: the keys in insertion order. */
  function Keys<K, V>(m: AssocList<K, V>): (ks: seq<K>)
    ensures |ks| == |m| && forall i :: 0 <= i < |m| ==> ks[i] == m[i].0
  {
    seq(|m|, i requires 0 <= i < |m| => m[i].0)
  }

  /** `m.has(k)`. */
  predicate Has<K(==), V>(m: AssocList<K, V>, k: K) {
    k in Keys(m)
  }

  /** `m.get(k)`, with `undefined` as `None`. */
  function Get<K(==), V>(m: AssocList<K, V>, k: K): Option<V> {
    if |m| == 0 then None
    else if m[0].0 == k then Some(m[0].1)
    else Get(m[1..], k)
  }

  /** `m.set(k, v)`: a present key keeps its place and takes the new value; an absent key
      is added at the end. */
  function Set<K(==, !new), V>(m: AssocList<K, V>, k: K, v: V): (r: AssocList<K, V>)
    ensures Get(r, k) == Some(v)
    ensures forall k' :: k' != k ==> Get(r, k') == Get(m, k')
    ensures Keys(r) == if Has(m, k) then Keys(m) else Keys(m) + [k]
  {
    if |m| == 0 then [(k, v)]
    else if m[0].0 == k then
      ConsView(m);
      ConsView([(k, v)] + m[1..]);
      [(k, v)] + m[1..]
    else
      var r := [m[0]] + Set(m[1..], k, v);
      ConsView(m);
      ConsView(r);
      r
  }

  /** A non-empty list seen as its first entry followed by the rest. */
  lemma ConsView<K, V>(m: AssocList<K, V>)
    requires |m| > 0
    ensures Keys(m) == [m[0].0] + Keys(m[1..])
    ensures forall k :: Get(m, k) == if m[0].0 == k then Some(m[0].1) else Get(m[1..], k)
  {
  }

  /** `if (!m.has(k)) m.set(k, v)`: the first registration of a key wins. */
  function SetIfAbsent<K(==, !new), V>(m: AssocList<K, V>, k: K, v: V): AssocList<K, V> {
    if Has(m, k) then m else Set(m, k, v)
  }

  /** `entries.forEach(([k, v]) => { if (!m.has(k)) m.set(k, v) })`. */
  function SetEachIfAbsent<K(==, !new), V>(m: AssocList<K, V>, entries: seq<(K, V)>): AssocList<K, V> {
    if |entries| == 0 then m
    else
      var last := entries[|entries| - 1];
      SetIfAbsent(SetEachIfAbsent(m, entries[..|entries| - 1]), last.0, last.1)
  }

  /** Setting an absent key appends it. */
  lemma SetAbsentAppends<K(!new), V>(m: AssocList<K, V>, k: K, v: V)
    requires !Has(m, k)
    ensures Set(m, k, v) == m + [(k, v)]
  {
    if |m| > 0 {
      assert Keys(m) == [m[0].0] + Keys(m[1..]);
      SetAbsentAppends(m[1..], k, v);
      assert m == [m[0]] + m[1..];
    }
  }

  /** Registering only ever appends: the map before is a prefix of the map after. */
  lemma {:induction false} SetEachIfAbsentExtends<K(!new), V>(m: AssocList<K, V>, entries: seq<(K, V)>)
    ensures |m| <= |SetEachIfAbsent(m, entries)|
    ensures SetEachIfAbsent(m, entries)[..|m|] == m
  {
    if |entries| > 0 {
      var last := entries[|entries| - 1];
      var m' := SetEachIfAbsent(m, entries[..|entries| - 1]);
      SetEachIfAbsentExtends(m, entries[..|entries| - 1]);
      if !Has(m', last.0) {
        SetAbsentAppends(m', last.0, last.1);
        assert (m' + [last])[..|m|] == m'[..|m|];
      }
    }
  }

  /** Registering two batches in turn is registering them together. */
  lemma {:induction false} SetEachIfAbsentConcat<K(!new), V>(m: AssocList<K, V>, a: seq<(K, V)>, b: seq<(K, V)>)
    ensures SetEachIfAbsent(m, a + b) == SetEachIfAbsent(SetEachIfAbsent(m, a), b)
  {
    if |b| == 0 {
      assert a + b == a;
    } else {
      assert (a + b)[..|a + b| - 1] == a + b[..|b| - 1];
      SetEachIfAbsentConcat(m, a, b[..|b| - 1]);
    }
  }

  /** A key present in a prefix has the value the prefix gives it. */
  lemma {:induction false} GetInPrefix<K, V>(m: AssocList<K, V>, m': AssocList<K, V>, k: K)
    requires |m| <= |m'| && m'[..|m|] == m && Has(m, k)
    ensures Get(m', k) == Get(m, k)
  {
    ConsView(m);
    ConsView(m');
    assert m'[0] == m[0];
    if m[0].0 != k {
      assert m'[1..][..|m| - 1] == m[1..];
      GetInPrefix(m[1..], m'[1..], k);
    }
  }

  /** The value the entry list gives a key: that of the entry where the key first occurs. */
  function FirstValue<K(==), V>(entries: seq<(K, V)>, k: K): Option<V> {
    if k in Keys(entries) then Some(entries[FirstIndex(Keys(entries), k)].1) else None
  }

  /** Behind a prefix without the key, the first entry for the key is the first one in
      the rest. */
  lemma FirstValueBehind<K, V>(pre: seq<(K, V)>, rest: seq<(K, V)>, k: K, idx: nat)
    requires k !in Keys(pre) && idx < |rest| && rest[idx].0 == k
    requires forall f :: 0 <= f < idx ==> rest[f].0 != k
    ensures FirstValue(pre + rest, k) == Some(rest[idx].1)
  {
    KeysConcat(pre, rest);
    assert Keys(rest)[idx] == k;
    assert FirstIndex(Keys(rest), k) == idx;
    FirstIndexConcat(Keys(pre), Keys(rest), k);
    assert (pre + rest)[|pre| + idx] == rest[idx];
  }

  /** Registering a list of entries into an empty map keeps the keys in first-seen order. */
  lemma {:induction false} SetEachIfAbsentKeys<K(!new), V>(entries: seq<(K, V)>)
    ensures Keys(SetEachIfAbsent([], entries)) == Distinct(Keys(entries))
  {
    if |entries| > 0 {
      var p, last := entries[..|entries| - 1], entries[|entries| - 1];
      SetEachIfAbsentKeys(p);
      assert Keys(entries)[..|entries| - 1] == Keys(p);
    }
  }

  /** Registering a list of entries into an empty map gives each key the value of the
      entry where it first occurs. */
  lemma {:induction false} SetEachIfAbsentValues<K(!new), V>(entries: seq<(K, V)>, k: K)
    ensures Get(SetEachIfAbsent([], entries), k) == FirstValue(entries, k)
  {
    if |entries| > 0 {
      var p, last := entries[..|entries| - 1], entries[|entries| - 1];
      var m := SetEachIfAbsent([], p);
      SetEachIfAbsentValues(p, k);
      SetEachIfAbsentHas([], p, k);
      FirstValueSnoc(p, last, k);
      assert entries == p + [last];
      assert SetEachIfAbsent([], entries) == SetIfAbsent(m, last.0, last.1);
    }
  }

  /** The first value of a key after one more entry. */
  lemma FirstValueSnoc<K, V>(p: seq<(K, V)>, e: (K, V), k: K)
    ensures FirstValue(p + [e], k) ==
      if k in Keys(p) then FirstValue(p, k) else if k == e.0 then Some(e.1) else None
  {
    KeysConcat(p, [e]);
    assert Keys([e]) == [e.0];
    if k in Keys(p + [e]) {
      FirstIndexAppend(Keys(p), e.0, k);
      if k in Keys(p) {
        var i := FirstIndex(Keys(p), k);
        assert (p + [e])[i] == p[i];
      } else {
        assert (p + [e])[|p|] == e;
      }
    }
  }

  /** Registering a list of entries into an empty map keeps, for each key, the entry where
      the key first occurs: its keys are the distinct keys in first-seen order, and each
      key maps to the value of its first entry. */
  lemma SetEachIfAbsentFromEmpty<K(!new), V>(entries: seq<(K, V)>)
    ensures FirstSeenOrder(Keys(SetEachIfAbsent([], entries)), Keys(entries))
    ensures forall k :: Get(SetEachIfAbsent([], entries), k) == FirstValue(entries, k)
  {
    SetEachIfAbsentKeys(entries);
    DistinctFirstSeen(Keys(entries));
    forall k
      ensures Get(SetEachIfAbsent([], entries), k) == FirstValue(entries, k)
    {
      SetEachIfAbsentValues(entries, k);
    }
  }

  lemma KeysConcat<K, V>(a: AssocList<K, V>, b: AssocList<K, V>)
    ensures Keys(a + b) == Keys(a) + Keys(b)
  {
  }

  /** A key present in the map stays present, and registration adds exactly the keys of the
      entries. */
  lemma {:induction false} SetEachIfAbsentHas<K(!new), V>(m: AssocList<K, V>, entries: seq<(K, V)>, k: K)
    ensures Has(SetEachIfAbsent(m, entries), k) <==> Has(m, k) || k in Keys(entries)
  {
    if |entries| > 0 {
      var p := entries[..|entries| - 1];
      SetEachIfAbsentHas(m, p, k);
      assert Keys(entries) == Keys(p) + [entries[|entries| - 1].0];
    }
  }

  /** Building from more entries only appends: the map built from a prefix of the entries
      is a prefix of the map built from all of them, and keeps every value it had. */
  lemma MoreEntriesOnlyAppend<K(!new), V>(a: seq<(K, V)>, b: seq<(K, V)>)
    ensures var m, m' := SetEachIfAbsent([], a), SetEachIfAbsent([], a + b);
      && |m| <= |m'| && m'[..|m|] == m
      && Keys(m')[..|m|] == Keys(m)
      && forall k :: Has(m, k) ==> Get(m', k) == Get(m, k)
  {
    var m := SetEachIfAbsent([], a);
    var m' := SetEachIfAbsent([], a + b);
    SetEachIfAbsentConcat([], a, b);
    SetEachIfAbsentExtends(m, b);
    assert Keys(m')[..|m|] == Keys(m);
    forall k | Has(m, k)
      ensures Get(m', k) == Get(m, k)
    {
      GetInPrefix(m, m', k);
    }
  }
}

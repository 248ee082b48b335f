/** Go ranges over a map in an unspecified order. These multiset views of a map's
    values do not depend on that order, so contracts can be stated through them. */
module Bags {
  import opened Seqs

  /** A set is empty or has an element: the witness the such-that choice of a map
      key needs. */
  lemma NonEmpty<K>(s: set<K>)
    ensures s == {} || exists x :: x in s
  {
    if forall x :: x !in s {
      assert s == {};
    }
  }

  /** The same at type int, where the generic witness does not reach a such-that
      choice over integers. */
  lemma NonEmptyInts(s: set<int>)
    ensures s == {} || exists x :: x in s
  {
    if forall x :: x !in s {
      assert s == {};
    }
  }

  /** Some element of a non-empty set. */
  ghost function Pick<K>(s: set<K>): (k: K)
    requires s != {}
    ensures k in s
  {
    var k :| k in s; k
  }

  /** The values stored under `keys`, one occurrence per key. */
  ghost function ValuesBag<K, V>(m: map<K, V>, keys: set<K>): multiset<V>
    requires keys <= m.Keys
    decreases keys
  {
    if keys == {} then multiset{}
    else
      var k := Pick(keys);
      multiset{m[k]} + ValuesBag(m, keys - {k})
  }

  /** The elements of the sequences stored under `keys`, all of them. */
  ghost function FlatBag<K, V>(m: map<K, seq<V>>, keys: set<K>): multiset<V>
    requires keys <= m.Keys
    decreases keys
  {
    if keys == {} then multiset{}
    else
      var k := Pick(keys);
      multiset(m[k]) + FlatBag(m, keys - {k})
  }

  /** Any key can be taken out first: the bag does not depend on which key is picked. */
  lemma {:induction false} ValuesBagRemove<K, V>(m: map<K, V>, keys: set<K>, k: K)
    requires keys <= m.Keys && k in keys
    ensures ValuesBag(m, keys) == multiset{m[k]} + ValuesBag(m, keys - {k})
    decreases keys
  {
    var p := Pick(keys);
    if p != k {
      calc {
        ValuesBag(m, keys);
        multiset{m[p]} + ValuesBag(m, keys - {p});
        { ValuesBagRemove(m, keys - {p}, k); }
        multiset{m[p]} + multiset{m[k]} + ValuesBag(m, keys - {p} - {k});
        { assert keys - {p} - {k} == keys - {k} - {p}; }
        multiset{m[k]} + (multiset{m[p]} + ValuesBag(m, keys - {k} - {p}));
        { ValuesBagRemove(m, keys - {k}, p); }
        multiset{m[k]} + ValuesBag(m, keys - {k});
      }
    }
  }

  lemma {:induction false} FlatBagRemove<K, V>(m: map<K, seq<V>>, keys: set<K>, k: K)
    requires keys <= m.Keys && k in keys
    ensures FlatBag(m, keys) == multiset(m[k]) + FlatBag(m, keys - {k})
    decreases keys
  {
    var p := Pick(keys);
    if p != k {
      calc {
        FlatBag(m, keys);
        multiset(m[p]) + FlatBag(m, keys - {p});
        { FlatBagRemove(m, keys - {p}, k); }
        multiset(m[p]) + multiset(m[k]) + FlatBag(m, keys - {p} - {k});
        { assert keys - {p} - {k} == keys - {k} - {p}; }
        multiset(m[k]) + (multiset(m[p]) + FlatBag(m, keys - {k} - {p}));
        { FlatBagRemove(m, keys - {k}, p); }
        multiset(m[k]) + FlatBag(m, keys - {k});
      }
    }
  }

  /** Every value under one of the keys is in the bag. */
  lemma {:induction false} ValuesBagHas<K, V>(m: map<K, V>, keys: set<K>, k: K)
    requires keys <= m.Keys && k in keys
    ensures m[k] in ValuesBag(m, keys)
  {
    ValuesBagRemove(m, keys, k);
  }

  /** The bag has one element per key. */
  lemma {:induction false} ValuesBagSize<K, V>(m: map<K, V>, keys: set<K>)
    requires keys <= m.Keys
    ensures |ValuesBag(m, keys)| == |keys|
    decreases keys
  {
    if keys != {} {
      ValuesBagSize(m, keys - {Pick(keys)});
    }
  }

  /** `s` lists every element of `keys` exactly once: one pass of a Go `range` over
      a map with those keys. */
  predicate ListsOnce<K>(s: seq<K>, keys: set<K>) {
    && (forall k :: k in s ==> k in keys) && (forall k :: k in keys ==> k in s)
    && (forall i, j :: 0 <= i < j < |s| ==> s[i] != s[j])
  }

  lemma {:induction false} ListsOnceSize<K>(s: seq<K>, keys: set<K>)
    requires ListsOnce(s, keys)
    ensures |s| == |keys|
    decreases |s|
  {
    if s != [] {
      var last := s[|s| - 1];
      var init := s[..|s| - 1];
      assert s == init + [last];
      assert last !in init;
      ListsOnceSize(init, keys - {last});
    }
  }

  /** Maps that agree on `keys` have the same bag over `keys`. */
  lemma {:induction false} FlatBagAgree<K, V>(m1: map<K, seq<V>>, m2: map<K, seq<V>>, keys: set<K>)
    requires keys <= m1.Keys && keys <= m2.Keys
    requires forall k :: k in keys ==> m1[k] == m2[k]
    ensures FlatBag(m1, keys) == FlatBag(m2, keys)
    decreases keys
  {
    if keys != {} {
      FlatBagAgree(m1, m2, keys - {Pick(keys)});
    }
  }

  /** Appending one element to the sequence under `k` (created empty when missing)
      adds that element to the bag. */
  lemma FlatBagAppend<K, V>(m: map<K, seq<V>>, k: K, v: V)
    ensures var m' := m[k := (if k in m then m[k] else []) + [v]];
      FlatBag(m', m'.Keys) == FlatBag(m, m.Keys) + multiset{v}
  {
    var m' := m[k := (if k in m then m[k] else []) + [v]];
    FlatBagRemove(m', m'.Keys, k);
    FlatBagAgree(m', m, m.Keys - {k});
    assert m'.Keys - {k} == m.Keys - {k};
    if k in m {
      FlatBagRemove(m, m.Keys, k);
    } else {
      assert m.Keys - {k} == m.Keys;
    }
  }

  /** `m[k] = append(m[k], v)`: a missing key starts from the empty sequence. */
  function AppendAt<K, V>(m: map<K, seq<V>>, k: K, v: V): (m': map<K, seq<V>>)
    ensures m'.Keys == m.Keys + {k}
  {
    m[k := (if k in m then m[k] else []) + [v]]
  }

  /** The values `vs` appended one after the other, each under its own key. */
  function AppendAll<K, V>(m: map<K, seq<V>>, vs: seq<V>, key: V -> K): map<K, seq<V>> {
    if vs == [] then m else AppendAt(AppendAll(m, vs[..|vs| - 1], key), key(vs[|vs| - 1]), vs[|vs| - 1])
  }

  /** Every value is stored under its own key. */
  ghost predicate Keyed<K, V>(m: map<K, seq<V>>, key: V -> K) {
    forall k, i :: k in m && 0 <= i < |m[k]| ==> key(m[k][i]) == k
  }

  lemma {:induction false} AppendAllConcat<K, V>(m: map<K, seq<V>>, a: seq<V>, b: seq<V>, key: V -> K)
    ensures AppendAll(m, a + b, key) == AppendAll(AppendAll(m, a, key), b, key)
    decreases |b|
  {
    if b == [] {
      assert a + b == a;
    } else {
      var n := |b| - 1;
      assert (a + b)[..|a + b| - 1] == a + b[..n] && (a + b)[|a + b| - 1] == b[n];
      AppendAllConcat(m, a, b[..n], key);
    }
  }

  /** Appending adds exactly the appended values to the bag of all values, and keeps
      every value under its own key. */
  lemma {:induction false} AppendAllBag<K, V>(m: map<K, seq<V>>, vs: seq<V>, key: V -> K)
    requires Keyed(m, key)
    ensures FlatBag(AppendAll(m, vs, key), AppendAll(m, vs, key).Keys) == FlatBag(m, m.Keys) + multiset(vs)
    ensures Keyed(AppendAll(m, vs, key), key)
    decreases |vs|
  {
    if vs != [] {
      var n := |vs| - 1;
      var before := AppendAll(m, vs[..n], key);
      var v := vs[n];
      AppendAllBag(m, vs[..n], key);
      assert AppendAll(m, vs, key) == AppendAt(before, key(v), v);
      FlatBagAppend(before, key(v), v);
      MultisetSnoc(vs);
      AppendAtKeyed(before, v, key);
    }
  }

  /** Appending a value under its own key keeps every value under its own key. */
  lemma AppendAtKeyed<K, V>(m: map<K, seq<V>>, v: V, key: V -> K)
    requires Keyed(m, key)
    ensures Keyed(AppendAt(m, key(v), v), key)
  {
    var after := AppendAt(m, key(v), v);
    forall k, i | k in after && 0 <= i < |after[k]|
      ensures key(after[k][i]) == k
    {
      if k == key(v) && k in m && i < |m[k]| {
        assert after[k][i] == m[k][i];
      }
    }
  }

  /** One more key visited: its sequence moves from the bag still to visit to the
      values gathered so far. */
  lemma FlatBagVisit<K, V>(m: map<K, seq<V>>, remaining: set<K>, k: K, gathered: seq<V>)
    requires remaining <= m.Keys && k in remaining
    requires multiset(gathered) + FlatBag(m, remaining) == FlatBag(m, m.Keys)
    ensures multiset(gathered + m[k]) + FlatBag(m, remaining - {k}) == FlatBag(m, m.Keys)
  {
    FlatBagRemove(m, remaining, k);
  }
}

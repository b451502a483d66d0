/** Python dictionaries as sequences of (key, value) pairs, so that insertion
    order, which Python 3.7+ guarantees and which the modelled code relies on
    when it builds and reorders forms, is part of the value. */
module OrderedDict {
  import opened Outcomes

  type Dict<K, V> = seq<(K, V)>

  /** The keys of `d`, in insertion order (Python's list(d)). */
  function Keys<K, V>(d: Dict<K, V>): (ks: seq<K>)
    ensures |ks| == |d|
    ensures forall i | 0 <= i < |d| :: ks[i] == d[i].0
  {
    if d == [] then [] else [d[0].0] + Keys(d[1..])
  }

  predicate HasKey<K(==), V>(d: Dict<K, V>, k: K) {
    k in Keys(d)
  }

  /** No element occurs twice. */
  predicate Distinct<K(==)>(s: seq<K>) {
    forall i, j | 0 <= i < j < |s| :: s[i] != s[j]
  }

  /** What every real Python dict satisfies: each key occurs once. */
  predicate DistinctKeys<K(==), V>(d: Dict<K, V>) {
    Distinct(Keys(d))
  }

  /** `k`'s value (Python's d.get(k)), None when `k` is not a key. */
  function Get<K(==), V>(d: Dict<K, V>, k: K): (r: Option<V>)
  {
    if d == [] then None
    else if d[0].0 == k then Some(d[0].1)
    else Get(d[1..], k)
  }

  /** Get finds exactly the keys of the dict. */
  lemma {:induction false} GetFindsKeys<K, V>(d: Dict<K, V>, k: K)
    ensures Get(d, k).Some? <==> HasKey(d, k)
  {
    if d != [] && d[0].0 != k {
      GetFindsKeys(d[1..], k);
    }
  }

  /** A lookup in a concatenation finds the key in the first part when it is
      there, and in the second part otherwise. */
  lemma {:induction false} GetConcat<K(!new), V>(a: Dict<K, V>, b: Dict<K, V>)
    ensures forall k :: Get(a + b, k) == if Get(a, k).Some? then Get(a, k) else Get(b, k)
  {
    if a == [] {
      assert a + b == b;
    } else {
      GetConcat(a[1..], b);
      assert (a + b)[1..] == a[1..] + b;
    }
  }

  /** The key sequence after inserting `k`: unchanged when `k` is already
      there, otherwise `k` goes last. */
  function AddKey<K(==)>(ks: seq<K>, k: K): seq<K> {
    if k in ks then ks else ks + [k]
  }

  /** Python's `d[k] = v`: an existing key keeps its position and gets the new
      value; a new key is appended. */
  function Set<K(==), V>(d: Dict<K, V>, k: K, v: V): (r: Dict<K, V>)
    ensures |r| == |d| || |r| == |d| + 1
  {
    if d == [] then [(k, v)]
    else if d[0].0 == k then [(k, v)] + d[1..]
    else [d[0]] + Set(d[1..], k, v)
  }

  /** Setting adds the key at the end exactly when it was not there. */
  lemma {:induction false} SetKeys<K, V>(d: Dict<K, V>, k: K, v: V)
    ensures Keys(Set(d, k, v)) == AddKey(Keys(d), k)
  {
    if d != [] && d[0].0 != k {
      SetKeys(d[1..], k, v);
      assert Keys(d) == [d[0].0] + Keys(d[1..]);
    }
  }

  /** After setting, `k` finds `v` and every other key finds what it found before. */
  lemma {:induction false} SetGet<K(!new), V>(d: Dict<K, V>, k: K, v: V)
    ensures forall k' :: Get(Set(d, k, v), k') == if k' == k then Some(v) else Get(d, k')
  {
    if d != [] && d[0].0 != k {
      SetGet(d[1..], k, v);
      var r := Set(d, k, v);
      assert r[1..] == Set(d[1..], k, v);
    }
  }

  /** Inserting a key no pair has appends the pair. */
  lemma {:induction false} SetFresh<K(!new), V>(d: Dict<K, V>, k: K, v: V)
    requires forall j | 0 <= j < |d| :: d[j].0 != k
    ensures Set(d, k, v) == d + [(k, v)]
  {
    if d != [] {
      SetFresh(d[1..], k, v);
    }
  }

  /** The keys of `ks` in order of first occurrence: the key sequence of a
      dict built by inserting `ks` one after the other. */
  function Dedup<K(==,!new)>(ks: seq<K>): (r: seq<K>)
    ensures Distinct(r)
    ensures forall k :: k in r <==> k in ks
  {
    if ks == [] then [] else AddKey(Dedup(ks[..|ks| - 1]), ks[|ks| - 1])
  }

  /** Removing duplicates keeps the first occurrences in place: the result for
      a prefix is a prefix of the result for the whole. */
  lemma {:induction false} DedupPrefix<K(!new)>(a: seq<K>, b: seq<K>)
    ensures Dedup(a) <= Dedup(a + b)
    decreases |b|
  {
    if b == [] {
      assert a + b == a;
    } else {
      var init := b[..|b| - 1];
      DedupPrefix(a, init);
      assert (a + b)[..|a + b| - 1] == a + init;
    }
  }
}

/**
 * Python dictionaries as the allocator uses them: a sequence of key/value pairs in
 * insertion order. Reading a key finds its pair; assigning to a key that is already
 * present replaces its value where it stands, and assigning to a new key appends it.
 */
module OrderedDict {
  import opened Wrappers

  type Dict<K, V> = seq<(K, V)>

  /** No key occurs twice, as in every Python dict. */
  predicate DistinctKeys<K(==, !new), V>(d: Dict<K, V>) {
    forall i, j :: 0 <= i < j < |d| ==> d[i].0 != d[j].0
  }

  /** `d.get(k)`: the value of the first pair whose key is `k`. */
  function Get<K(==, !new), V>(d: Dict<K, V>, k: K): Option<V> {
    if d == [] then None
    else if d[0].0 == k then Some(d[0].1)
    else Get(d[1..], k)
  }

  /** `d[k] = v`. */
  function Put<K(==, !new), V>(d: Dict<K, V>, k: K, v: V): Dict<K, V> {
    if d == [] then [(k, v)]
    else if d[0].0 == k then [(k, v)] + d[1..]
    else [d[0]] + Put(d[1..], k, v)
  }

  /** A key is found exactly when some pair carries it, and what is found is one of the pairs. */
  lemma {:induction false} GetSpec<K(!new), V>(d: Dict<K, V>, k: K)
    ensures Get(d, k).Some? ==> (k, Get(d, k).value) in d
    ensures Get(d, k).None? <==> forall i :: 0 <= i < |d| ==> d[i].0 != k
  {
    if d != [] && d[0].0 != k {
      GetSpec(d[1..], k);
      assert forall i :: 1 <= i < |d| ==> d[i] == d[1..][i - 1];
    }
  }

  /** With distinct keys, the value found for a key is the one its pair carries. */
  lemma {:induction false} GetDistinct<K(!new), V>(d: Dict<K, V>, i: nat)
    requires DistinctKeys(d) && i < |d|
    ensures Get(d, d[i].0) == Some(d[i].1)
  {
    if i > 0 {
      assert d[1..][i - 1] == d[i];
      GetDistinct(d[1..], i - 1);
    }
  }

  /** After `d[k] = v`, `k` reads `v` and every other key reads what it read before. */
  lemma {:induction false} PutGet<K(!new), V>(d: Dict<K, V>, k: K, v: V)
    ensures Get(Put(d, k, v), k) == Some(v)
    ensures forall k' :: k' != k ==> Get(Put(d, k, v), k') == Get(d, k')
  {
    if d != [] && d[0].0 != k {
      PutGet(d[1..], k, v);
    }
  }

  /**
   * `d[k] = v` keeps every existing key at its position, puts a new key at the end,
   * and adds no pair but `(k, v)`.
   */
  lemma {:induction false} PutShape<K(!new), V>(d: Dict<K, V>, k: K, v: V)
    ensures |Put(d, k, v)| == if Get(d, k).Some? then |d| else |d| + 1
    ensures forall i :: 0 <= i < |d| ==> Put(d, k, v)[i].0 == d[i].0
    ensures Get(d, k).None? ==> Put(d, k, v)[|d|] == (k, v)
    ensures forall p :: p in Put(d, k, v) ==> p == (k, v) || p in d
  {
    if d != [] && d[0].0 != k {
      PutShape(d[1..], k, v);
      var r := Put(d, k, v);
      assert r == [d[0]] + Put(d[1..], k, v);
      forall i | 0 <= i < |d| ensures r[i].0 == d[i].0 {
        if i > 0 { assert r[i] == Put(d[1..], k, v)[i - 1] && d[i] == d[1..][i - 1]; }
      }
    }
  }

  /** Assignment never makes a key occur twice. */
  lemma PutKeepsKeysDistinct<K(!new), V>(d: Dict<K, V>, k: K, v: V)
    requires DistinctKeys(d)
    ensures DistinctKeys(Put(d, k, v))
  {
    PutShape(d, k, v);
    var r := Put(d, k, v);
    forall i, j | 0 <= i < j < |r| ensures r[i].0 != r[j].0 {
      if j == |d| {
        GetSpec(d, k);
      }
    }
  }
}

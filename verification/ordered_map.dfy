/**
 * A JavaScript `Map` as a value: the entries in insertion order. `Set` on a
 * key already present replaces that entry's value where it stands; on a new
 * key it appends. Iterating `values()` visits the entries in this order.
 */
module OrderedMap {
  import opened Wrappers

  datatype Entry<K, V> = Entry(key: K, value: V)

  type Table<K, V> = seq<Entry<K, V>>

  /** `map.get(k)`: the value stored under `k`, if any. */
  function Get<K(==, !new), V>(t: Table<K, V>, k: K): Option<V> {
    if |t| == 0 then None
    else if t[|t| - 1].key == k then Some(t[|t| - 1].value)
    else Get(t[..|t| - 1], k)
  }

  /** `map.has(k)`. */
  predicate Has<K(==, !new), V>(t: Table<K, V>, k: K) {
    Get(t, k).Some?
  }

  /** No key occurs twice; every table built by `Set` alone has this shape. */
  ghost predicate DistinctKeys<K, V>(t: Table<K, V>) {
    forall i, j :: 0 <= i < j < |t| ==> t[i].key != t[j].key
  }

  function Replace<K(==, !new), V>(t: Table<K, V>, k: K, v: V): (r: Table<K, V>)
    ensures |r| == |t|
    ensures forall i :: 0 <= i < |t| ==> r[i].key == t[i].key
  {
    seq(|t|, i requires 0 <= i < |t| => if t[i].key == k then Entry(k, v) else t[i])
  }

  /** `map.set(k, v)`. */
  function Set<K(==, !new), V>(t: Table<K, V>, k: K, v: V): (r: Table<K, V>)
    ensures Get(r, k) == Some(v)
    ensures forall k' :: k' != k ==> Get(r, k') == Get(t, k')
    ensures DistinctKeys(t) ==> DistinctKeys(r)
    ensures !Has(t, k) ==> r == t + [Entry(k, v)]
    ensures Has(t, k) ==> |r| == |t| && forall i :: 0 <= i < |t| ==> r[i].key == t[i].key
  {
    if Has(t, k) then
      ReplaceGet(t, k, v);
      Replace(t, k, v)
    else
      AppendGet(t, k, v);
      GetMissing(t, k);
      t + [Entry(k, v)]
  }

  lemma {:induction false} GetMissing<K(!new), V>(t: Table<K, V>, k: K)
    ensures !Has(t, k) <==> forall i :: 0 <= i < |t| ==> t[i].key != k
  {
    if |t| > 0 {
      GetMissing(t[..|t| - 1], k);
    }
  }

  /** In a table without repeated keys, `Get` finds the one entry with that key. */
  lemma {:induction false} GetAt<K(!new), V>(t: Table<K, V>, i: int)
    requires DistinctKeys(t) && 0 <= i < |t|
    ensures Get(t, t[i].key) == Some(t[i].value)
  {
    if i < |t| - 1 {
      GetAt(t[..|t| - 1], i);
    }
  }

  /** Whatever `Get` returns is stored in some entry under that key. */
  lemma {:induction false} GetWitness<K(!new), V>(t: Table<K, V>, k: K) returns (i: int)
    requires Has(t, k)
    ensures 0 <= i < |t| && t[i] == Entry(k, Get(t, k).value)
  {
    if t[|t| - 1].key == k {
      i := |t| - 1;
    } else {
      i := GetWitness(t[..|t| - 1], k);
    }
  }

  lemma AppendGet<K(!new), V>(t: Table<K, V>, k: K, v: V)
    ensures forall k' :: Get(t + [Entry(k, v)], k') == if k' == k then Some(v) else Get(t, k')
  {
    assert (t + [Entry(k, v)])[..|t|] == t;
  }

  lemma {:induction false} ReplaceGetOne<K(!new), V>(t: Table<K, V>, k: K, v: V, k': K)
    ensures Get(Replace(t, k, v), k') == if k' == k && Has(t, k) then Some(v) else Get(t, k')
  {
    if |t| > 0 {
      var n := |t| - 1;
      assert Replace(t, k, v)[..n] == Replace(t[..n], k, v);
      ReplaceGetOne(t[..n], k, v, k');
    }
  }

  lemma ReplaceGet<K(!new), V>(t: Table<K, V>, k: K, v: V)
    ensures forall k' :: Get(Replace(t, k, v), k') == if k' == k && Has(t, k) then Some(v) else Get(t, k')
  {
    forall k' {
      ReplaceGetOne(t, k, v, k');
    }
  }
}

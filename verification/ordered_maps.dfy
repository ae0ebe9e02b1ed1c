/**
 * JavaScript `Map` semantics: entries kept in insertion order, each key at
 * most once; `set` on a present key replaces its value in place, on a new key
 * appends an entry. Iteration (`forEach`) visits entries in this order.
 */
module OrderedMaps {

  import opened Wrappers

  type OrderedMap<K, V> = seq<(K, V)>

  predicate UniqueKeys<K(==, !new), V>(m: OrderedMap<K, V>) {
    forall i, j :: 0 <= i < j < |m| ==> m[i].0 != m[j].0
  }

  /** The keys in iteration order. */
  function Keys<K(==, !new), V>(m: OrderedMap<K, V>): (ks: seq<K>)
    ensures |ks| == |m|
    ensures forall i :: 0 <= i < |m| ==> ks[i] == m[i].0
  {
    if |m| == 0 then [] else [m[0].0] + Keys(m[1..])
  }

  /** `map.get(k)`: the value of the first entry with key `k`, if any. */
  function Get<K(==, !new), V>(m: OrderedMap<K, V>, k: K): (r: Option<V>)
    ensures r.Some? <==> exists i :: 0 <= i < |m| && m[i].0 == k
    ensures r.Some? ==> exists i :: 0 <= i < |m| && m[i] == (k, r.value)
  {
    if |m| == 0 then None
    else if m[0].0 == k then Some(m[0].1)
    else
      var r := Get(m[1..], k);
      assert r.Some? ==> m[1..][0] == m[1] && exists i :: 1 <= i < |m| && m[i] == (k, r.value) by {
        if r.Some? {
          var i :| 0 <= i < |m[1..]| && m[1..][i] == (k, r.value);
          assert m[i + 1] == (k, r.value);
        }
      }
      r
  }

  /** `map.has(k)`. */
  predicate Has<K(==, !new), V>(m: OrderedMap<K, V>, k: K) {
    Get(m, k).Some?
  }

  /** `map.set(k, v)`: replace the value of key `k` in place, or append a new entry. */
  function Set<K(==, !new), V>(m: OrderedMap<K, V>, k: K, v: V): (r: OrderedMap<K, V>)
    ensures Has(m, k) ==> |r| == |m|
    ensures !Has(m, k) ==> r == m + [(k, v)]
    ensures Get(r, k) == Some(v)
    ensures forall j :: j != k ==> Get(r, j) == Get(m, j)
    ensures forall i :: 0 <= i < |m| ==> r[i].0 == m[i].0
  {
    if |m| == 0 then [(k, v)]
    else if m[0].0 == k then [(k, v)] + m[1..]
    else
      var rest := Set(m[1..], k, v);
      assert forall j :: j != m[0].0 ==> Get(m, j) == Get(m[1..], j);
      assert !Has(m[1..], k) ==> m + [(k, v)] == [m[0]] + (m[1..] + [(k, v)]);
      [m[0]] + rest
  }

  /** `set` never creates a second entry for a key. */
  lemma SetKeepsUnique<K(!new), V>(m: OrderedMap<K, V>, k: K, v: V)
    requires UniqueKeys(m)
    ensures UniqueKeys(Set(m, k, v))
  {
    var r := Set(m, k, v);
    if !Has(m, k) {
      forall i | 0 <= i < |m| ensures r[i].0 != k {
        assert m[i].0 != k;
      }
    }
  }

  /** In a map with unique keys, the entry at position i is what `get` returns for its key. */
  lemma GetAt<K(!new), V>(m: OrderedMap<K, V>, i: nat)
    requires UniqueKeys(m) && i < |m|
    ensures Get(m, m[i].0) == Some(m[i].1)
  {
    var r := Get(m, m[i].0);
    var t :| 0 <= t < |m| && m[t] == (m[i].0, r.value);
    assert t == i;
  }
}

/**
 * The two `ConcurrentDictionary` operations the hub performs on its
 * registry of connections: `TryAdd` on admission and `TryRemove` on
 * cleanup. Each is one atomic step here; the thread safety that the
 * dictionary provides is what makes that a faithful reading.
 */
module Registry {
  import opened Wrappers

  /**
   * Inserts `k` with value `v` unless `k` is already a key; reports whether
   * it inserted. An existing entry keeps its value.
   */
  function TryAdd<K, V>(m: map<K, V>, k: K, v: V): (r: (map<K, V>, bool))
    ensures r.1 <==> k !in m
    ensures r.0.Keys == m.Keys + {k}
    ensures r.0[k] == (if r.1 then v else m[k])
    ensures forall j :: j in m ==> r.0[j] == m[j]
    ensures |r.0| == |m| + (if r.1 then 1 else 0)
  {
    if k in m then (m, false)
    else
      assert (m[k := v]).Keys == m.Keys + {k};
      (m[k := v], true)
  }

  /**
   * Removes `k` and returns the value it had, if it was a key; removing an
   * absent key is a no-op.
   */
  function TryRemove<K, V>(m: map<K, V>, k: K): (r: (map<K, V>, Option<V>))
    ensures r.0.Keys == m.Keys - {k}
    ensures r.0 == m - {k}
    ensures r.1 == (if k in m then Some(m[k]) else None)
    ensures forall j :: j in r.0 ==> r.0[j] == m[j]
    ensures |r.0| == |m| - (if k in m then 1 else 0)
  {
    if k in m then
      assert (m - {k}).Keys == m.Keys - {k};
      (m - {k}, Some(m[k]))
    else (m, None)
  }

  /** Removing twice is the same as removing once, and the second finds nothing. */
  lemma TryRemoveIdempotent<K, V>(m: map<K, V>, k: K)
    ensures TryRemove(TryRemove(m, k).0, k) == (TryRemove(m, k).0, None)
  {
  }

  /** Adding a key that is present changes nothing, whatever value is offered. */
  lemma TryAddPresentIsNoOp<K, V>(m: map<K, V>, k: K, v: V)
    requires k in m
    ensures TryAdd(m, k, v) == (m, false)
  {
  }

  /** Adding a fresh key and then removing it restores the registry. */
  lemma TryAddThenRemove<K, V>(m: map<K, V>, k: K, v: V)
    requires k !in m
    ensures TryRemove(TryAdd(m, k, v).0, k) == (m, Some(v))
  {
    assert TryRemove(TryAdd(m, k, v).0, k).0 == m;
  }
}

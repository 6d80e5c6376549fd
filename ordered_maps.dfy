/**
  Python dictionaries keep their insertion order, and the dispatcher relies
  on it (the partial merge of a module's commands, the order in which the
  quit command tears modules down). A dictionary keyed by strings is modelled
  as a sequence of (key, value) pairs in insertion order.
 */
module OrderedMaps {
  import opened Wrappers

  type OMap<V> = seq<(string, V)>

  /** `k in d` */
  predicate Has<V>(m: OMap<V>, k: string) {
    exists i :: 0 <= i < |m| && m[i].0 == k
  }

  /** `d[k]`, with None for the KeyError case. */
  function Get<V>(m: OMap<V>, k: string): (r: Option<V>)
    ensures r.Some? <==> Has(m, k)
    ensures r.Some? ==> exists i :: 0 <= i < |m| && m[i] == (k, r.value)
  {
    if |m| == 0 then None
    else if m[0].0 == k then Some(m[0].1)
    else Get(m[1..], k)
  }

  /** A dictionary never holds the same key twice. */
  predicate DistinctKeys<V>(m: OMap<V>) {
    forall i, j :: 0 <= i < j < |m| ==> m[i].0 != m[j].0
  }

  /** In a dictionary, the entry stored at a key is the one found by Get. */
  lemma GetAt<V>(m: OMap<V>, i: nat)
    requires DistinctKeys(m) && i < |m|
    ensures Get(m, m[i].0) == Some(m[i].1)
  {
    if i > 0 && m[0].0 != m[i].0 {
      GetAt(m[1..], i - 1);
    }
  }

  /** Appending an entry for a new key leaves the old lookups alone. */
  lemma GetAppend<V>(m: OMap<V>, k: string, v: V, q: string)
    ensures Get(m + [(k, v)], q) == if Has(m, q) then Get(m, q) else if q == k then Some(v) else None
  {
    if |m| > 0 && m[0].0 != q {
      assert (m + [(k, v)])[1..] == m[1..] + [(k, v)];
      GetAppend(m[1..], k, v, q);
      assert Has(m, q) <==> Has(m[1..], q) by {
        if Has(m, q) {
          var i :| 0 <= i < |m| && m[i].0 == q;
          assert m[1..][i - 1].0 == q;
        }
      }
    }
  }

  /** Appending entries adds keys and leaves the lookup of every existing key alone. */
  lemma {:induction false} GetConcat<V>(m: OMap<V>, e: OMap<V>, k: string)
    ensures Has(m + e, k) <==> Has(m, k) || Has(e, k)
    ensures Has(m, k) ==> Get(m + e, k) == Get(m, k)
    decreases |m|
  {
    var me := m + e;
    if Has(me, k) {
      var i :| 0 <= i < |me| && me[i].0 == k;
      if i < |m| { assert m[i].0 == k; } else { assert e[i - |m|].0 == k; }
    }
    if Has(e, k) {
      var i :| 0 <= i < |e| && e[i].0 == k;
      assert me[|m| + i].0 == k;
    }
    if Has(m, k) {
      var i :| 0 <= i < |m| && m[i].0 == k;
      assert me[i].0 == k;
      if m[0].0 != k {
        assert me[1..] == m[1..] + e;
        assert m[1..][i - 1].0 == k;
        GetConcat(m[1..], e, k);
      }
    }
  }
}

/** Sums of natural-number values over a finite map, for counters that the store keeps per key. */
module Sums {

  /** Some key of a non-empty map; the sums below take keys out in this order. */
  ghost function PickKey<K>(m: map<K, nat>): (k: K)
    requires |m| > 0
    ensures k in m
  {
    assert exists k :: k in m.Keys by { var x :| x in m.Keys; }
    var k :| k in m; k
  }

  /** Some element of a non-empty set. */
  ghost function PickElement<K>(keys: set<K>): (k: K)
    requires |keys| > 0
    ensures k in keys
  {
    var k :| k in keys; k
  }

  /** The sum of all values of `m`. */
  ghost function SumMap<K>(m: map<K, nat>): nat
    decreases |m|
  {
    if |m| == 0 then 0
    else
      var k := PickKey(m);
      assert |m - {k}| == |m| - 1 by { assert (m - {k}).Keys == m.Keys - {k}; }
      m[k] + SumMap(m - {k})
  }

  /** Any key may be taken out first. */
  lemma {:induction false} SumMapRemove<K>(m: map<K, nat>, x: K)
    requires x in m
    ensures SumMap(m) == m[x] + SumMap(m - {x})
    decreases |m|
  {
    var k := PickKey(m);
    assert |m - {k}| == |m| - 1 by { assert (m - {k}).Keys == m.Keys - {k}; }
    if k != x {
      assert |m - {x}| == |m| - 1 by { assert (m - {x}).Keys == m.Keys - {x}; }
      SumMapRemove(m - {k}, x);
      SumMapRemove(m - {x}, k);
      assert m - {k} - {x} == m - {x} - {k};
    }
  }

  /** Setting a key leaves the rest of the map as it was. */
  lemma UpdateOthers<K>(m: map<K, nat>, k: K, v: nat)
    ensures m[k := v] - {k} == m - {k}
  {
    var a, b := m[k := v] - {k}, m - {k};
    assert a.Keys == b.Keys;
    forall x | x in a ensures a[x] == b[x] {
      assert x != k;
    }
  }

  /** Setting one key changes the sum by the difference of old and new value. */
  lemma SumMapUpdate<K>(m: map<K, nat>, k: K, v: nat)
    ensures SumMap(m[k := v]) + (if k in m then m[k] else 0) == SumMap(m) + v
  {
    var m' := m[k := v];
    SumMapRemove(m', k);
    UpdateOthers(m, k, v);
    if k in m {
      SumMapRemove(m, k);
    } else {
      assert m - {k} == m;
    }
  }

  /** When every value is at least 1, the sum is at least the number of keys. */
  lemma {:induction false} SumMapAtLeastSize<K>(m: map<K, nat>)
    requires forall k :: k in m ==> m[k] >= 1
    ensures SumMap(m) >= |m|
    decreases |m|
  {
    if |m| > 0 {
      var k :| k in m;
      SumMapRemove(m, k);
      assert |m - {k}| == |m| - 1 by { assert (m - {k}).Keys == m.Keys - {k}; }
      SumMapAtLeastSize(m - {k});
    }
  }

  /** The sum over a set of keys (a key absent from `m` counts 0). */
  ghost function SumOver<K>(m: map<K, nat>, keys: set<K>): nat
    decreases |keys|
  {
    if |keys| == 0 then 0
    else
      var k := PickElement(keys);
      (if k in m then m[k] else 0) + SumOver(m, keys - {k})
  }

  lemma {:induction false} SumOverRemove<K>(m: map<K, nat>, keys: set<K>, x: K)
    requires x in keys
    ensures SumOver(m, keys) == (if x in m then m[x] else 0) + SumOver(m, keys - {x})
    decreases |keys|
  {
    var k := PickElement(keys);
    if k != x {
      SumOverRemove(m, keys - {k}, x);
      SumOverRemove(m, keys - {x}, k);
      assert keys - {k} - {x} == keys - {x} - {k};
    }
  }

  /** Summing over some keys never exceeds the sum over the whole map. */
  lemma {:induction false} SumOverAtMostSumMap<K>(m: map<K, nat>, keys: set<K>)
    ensures SumOver(m, keys) <= SumMap(m)
    decreases |keys|
  {
    if |keys| > 0 {
      var k :| k in keys;
      SumOverRemove(m, keys, k);
      if k in m {
        SumMapRemove(m, k);
        SumOverAtMostSumMap(m - {k}, keys - {k});
        SumOverFrame(m, m - {k}, keys - {k});
      } else {
        SumOverAtMostSumMap(m, keys - {k});
      }
    }
  }

  /** Maps that agree on `keys` have the same sum over `keys`. */
  lemma {:induction false} SumOverFrame<K>(m: map<K, nat>, m': map<K, nat>, keys: set<K>)
    requires forall k :: k in keys ==> (k in m <==> k in m') && (k in m ==> m[k] == m'[k])
    ensures SumOver(m, keys) == SumOver(m', keys)
    decreases |keys|
  {
    if |keys| > 0 {
      var k :| k in keys;
      SumOverRemove(m, keys, k);
      SumOverRemove(m', keys, k);
      SumOverFrame(m, m', keys - {k});
    }
  }
}

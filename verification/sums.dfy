/**
 Lookups with a default and sums over the values of a finite map. The sums
 state what the counting and loss-aggregation loops accumulate independently
 of the order in which a dictionary happens to be visited.
 */
module Sums {

  /** `m.get(k, 0)`: the count under `k`, 0 when there is none. */
  function Get<K>(m: map<K, nat>, k: K): nat
  {
    if k in m then m[k] else 0
  }

  /** `m.get(k, 0)` for a map of reals. */
  function RealGet<K>(m: map<K, real>, k: K): real
  {
    if k in m then m[k] else 0.0
  }

  /** The element a sum takes out first; any fixed choice will do. */
  ghost function Pick<K>(s: set<K>): (k: K)
    requires s != {}
    ensures k in s
  {
    var k :| k in s; k
  }

  /** Sum of the counts of `m` under the keys of `ks`. */
  ghost function SumOver<K>(m: map<K, nat>, ks: set<K>): nat
    decreases ks
  {
    if ks == {} then 0
    else
      var k := Pick(ks);
      Get(m, k) + SumOver(m, ks - {k})
  }

  /** Sum of all counts held in a map. */
  ghost function Total<K>(m: map<K, nat>): nat
  {
    SumOver(m, m.Keys)
  }

  /** Sum of the reals of `m` under the keys of `ks`. */
  ghost function RealSumOver<K>(m: map<K, real>, ks: set<K>): real
    decreases ks
  {
    if ks == {} then 0.0
    else
      var k := Pick(ks);
      RealGet(m, k) + RealSumOver(m, ks - {k})
  }

  /** Sum of all reals held in a map. */
  ghost function RealTotal<K>(m: map<K, real>): real
  {
    RealSumOver(m, m.Keys)
  }

  /** Any key may be taken out first: the sum does not depend on the choice. */
  lemma {:induction false} SumOverRemove<K>(m: map<K, nat>, ks: set<K>, k: K)
    requires k in ks
    ensures SumOver(m, ks) == Get(m, k) + SumOver(m, ks - {k})
    decreases ks
  {
    var j := Pick(ks);
    if j != k {
      SumOverRemove(m, ks - {j}, k);
      SumOverRemove(m, ks - {k}, j);
      assert ks - {j} - {k} == ks - {k} - {j};
    }
  }

  lemma {:induction false} RealSumOverRemove<K>(m: map<K, real>, ks: set<K>, k: K)
    requires k in ks
    ensures RealSumOver(m, ks) == RealGet(m, k) + RealSumOver(m, ks - {k})
    decreases ks
  {
    var j := Pick(ks);
    if j != k {
      RealSumOverRemove(m, ks - {j}, k);
      RealSumOverRemove(m, ks - {k}, j);
      assert ks - {j} - {k} == ks - {k} - {j};
    }
  }

  /** A sum only depends on the values under the keys it ranges over. */
  lemma {:induction false} SumOverFrame<K>(m: map<K, nat>, m': map<K, nat>, ks: set<K>)
    requires forall k | k in ks :: Get(m, k) == Get(m', k)
    ensures SumOver(m, ks) == SumOver(m', ks)
    decreases ks
  {
    if ks != {} {
      SumOverFrame(m, m', ks - {Pick(ks)});
    }
  }

  /** A key not yet summed over adds its count. */
  lemma SumOverAdd<K>(m: map<K, nat>, ks: set<K>, k: K)
    requires k !in ks
    ensures SumOver(m, ks + {k}) == SumOver(m, ks) + Get(m, k)
  {
    SumOverRemove(m, ks + {k}, k);
    assert ks + {k} - {k} == ks;
  }

  /** Counts are never negative, so a sum over fewer keys is no larger. */
  lemma {:induction false} SumOverSubset<K>(m: map<K, nat>, ks: set<K>, js: set<K>)
    requires ks <= js
    ensures SumOver(m, ks) <= SumOver(m, js)
    decreases js
  {
    if js != {} {
      var k := Pick(js);
      if k in ks {
        SumOverRemove(m, ks, k);
        SumOverSubset(m, ks - {k}, js - {k});
      } else {
        SumOverSubset(m, ks, js - {k});
      }
    }
  }

  lemma {:induction false} RealSumOverFrame<K>(m: map<K, real>, m': map<K, real>, ks: set<K>)
    requires forall k | k in ks :: RealGet(m, k) == RealGet(m', k)
    ensures RealSumOver(m, ks) == RealSumOver(m', ks)
    decreases ks
  {
    if ks != {} {
      RealSumOverFrame(m, m', ks - {Pick(ks)});
    }
  }

  /** Adding `c` to the count under `k` adds `c` to the sum. */
  lemma TotalAdd<K>(m: map<K, nat>, k: K, c: nat)
    ensures Total(m[k := Get(m, k) + c]) == Total(m) + c
  {
    var m' := m[k := Get(m, k) + c];
    SumOverRemove(m', m'.Keys, k);
    assert m'.Keys - {k} == m.Keys - {k};
    SumOverFrame(m, m', m.Keys - {k});
    if k in m {
      SumOverRemove(m, m.Keys, k);
    } else {
      assert m.Keys - {k} == m.Keys;
    }
  }

  /** Adding `c` to the real under `k` adds `c` to the sum. */
  lemma RealTotalAdd<K>(m: map<K, real>, k: K, c: real)
    ensures RealTotal(m[k := RealGet(m, k) + c]) == RealTotal(m) + c
  {
    var m' := m[k := RealGet(m, k) + c];
    RealSumOverRemove(m', m'.Keys, k);
    assert m'.Keys - {k} == m.Keys - {k};
    RealSumOverFrame(m, m', m.Keys - {k});
    if k in m {
      RealSumOverRemove(m, m.Keys, k);
    } else {
      assert m.Keys - {k} == m.Keys;
    }
  }
}

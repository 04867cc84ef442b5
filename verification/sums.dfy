/** Sums of the values of an integer-keyed map, the `values.sum()` of the chart builders. */
module Sums {
  import Extremes

  /** The sum of `m[k]` over the keys `k` in `keys`. */
  function SumOver(m: map<int, int>, keys: set<int>): int
    requires keys <= m.Keys
    decreases keys
  {
    if keys == {} then 0
    else
      var k := Extremes.MaxOf(keys);
      m[k] + SumOver(m, keys - {k})
  }

  /** The sum of all values of `m`. */
  function SumValues(m: map<int, int>): int {
    SumOver(m, m.Keys)
  }

  /** The sum does not depend on which key is taken out first. */
  lemma {:induction false} SumOverRemove(m: map<int, int>, keys: set<int>, k: int)
    requires keys <= m.Keys && k in keys
    ensures SumOver(m, keys) == m[k] + SumOver(m, keys - {k})
    decreases keys
  {
    var j := Extremes.MaxOf(keys);
    if j != k {
      SumOverRemove(m, keys - {j}, k);
      SumOverRemove(m, keys - {k}, j);
      assert keys - {j} - {k} == keys - {k} - {j};
    }
  }

  /** Summing over two disjoint key sets adds up. */
  lemma {:induction false} SumOverUnion(m: map<int, int>, a: set<int>, b: set<int>)
    requires a <= m.Keys && b <= m.Keys && a !! b
    ensures SumOver(m, a + b) == SumOver(m, a) + SumOver(m, b)
    decreases a
  {
    if a != {} {
      var k := Extremes.MaxOf(a);
      SumOverRemove(m, a + b, k);
      SumOverRemove(m, a, k);
      SumOverUnion(m, a - {k}, b);
      assert (a + b) - {k} == (a - {k}) + b;
    } else {
      assert a + b == b;
    }
  }

  /** Two maps that agree on `keys` have the same sum over `keys`. */
  lemma {:induction false} SumOverAgree(m1: map<int, int>, m2: map<int, int>, keys: set<int>)
    requires keys <= m1.Keys && keys <= m2.Keys
    requires forall k :: k in keys ==> m1[k] == m2[k]
    ensures SumOver(m1, keys) == SumOver(m2, keys)
    decreases keys
  {
    if keys != {} {
      var k := Extremes.MaxOf(keys);
      SumOverAgree(m1, m2, keys - {k});
    }
  }

  /** Setting key `k` to `v` replaces its old value (0 when absent) in the sum of all values. */
  lemma SumValuesUpdate(m: map<int, int>, k: int, v: int)
    ensures SumValues(m[k := v]) == SumValues(m) - (if k in m then m[k] else 0) + v
  {
    var m' := m[k := v];
    SumOverRemove(m', m'.Keys, k);
    SumOverAgree(m', m, m.Keys - {k});
    assert m'.Keys - {k} == m.Keys - {k};
    if k in m {
      SumOverRemove(m, m.Keys, k);
    } else {
      assert m.Keys - {k} == m.Keys;
    }
  }
}

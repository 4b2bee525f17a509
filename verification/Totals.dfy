/** Sums over the values of a dictionary of counters. */
module Totals {

  ghost function MapSum<K(!new)>(m: map<K, nat>): nat
    decreases |m|
  {
    if m == map[] then 0
    else
      var k :| k in m;
      m[k] + MapSum(m - {k})
  }

  /** The sum does not depend on which key is taken out first. */
  lemma {:induction false} MapSumWithout<K(!new)>(m: map<K, nat>, k: K)
    requires k in m
    ensures MapSum(m) == m[k] + MapSum(m - {k})
    decreases |m|
  {
    var j :| j in m && MapSum(m) == m[j] + MapSum(m - {j});
    if j != k {
      assert m - {j} - {k} == m - {k} - {j};
      MapSumWithout(m - {j}, k);
      MapSumWithout(m - {k}, j);
    }
  }

  lemma {:induction false} MapSumUpdate<K(!new)>(m: map<K, nat>, k: K, v: nat)
    ensures MapSum(m[k := v]) == MapSum(m - {k}) + v
    ensures MapSum(m) == MapSum(m - {k}) + if k in m then m[k] else 0
  {
    MapSumWithout(m[k := v], k);
    assert m[k := v] - {k} == m - {k};
    if k in m {
      MapSumWithout(m, k);
    } else {
      assert m - {k} == m;
    }
  }
}

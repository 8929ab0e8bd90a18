/** Sums over the entries of a finite map, independent of the order they are visited in. */
module MapSums {
  ghost function MapSum<K, V>(m: map<K, V>, f: (K, V) -> int): int
    decreases |m|
  {
    if m == map[] then 0 else
      var k :| k in m;
      assert |m - {k}| == |m| - 1 by { Shrinks(m, k); }
      f(k, m[k]) + MapSum(m - {k}, f)
  }

  lemma Shrinks<K, V>(m: map<K, V>, k: K)
    requires k in m
    ensures |m - {k}| == |m| - 1
  {
    assert (m - {k}).Keys == m.Keys - {k};
    assert |m| == |m.Keys|;
    assert |m - {k}| == |(m - {k}).Keys|;
  }

  /** Taking any one entry out takes its share out of the sum. */
  lemma {:induction false} SumWithout<K, V>(m: map<K, V>, f: (K, V) -> int, k: K)
    requires k in m
    ensures MapSum(m, f) == f(k, m[k]) + MapSum(m - {k}, f)
    decreases |m|
  {
    var j :| j in m && MapSum(m, f) == f(j, m[j]) + MapSum(m - {j}, f);
    if j != k {
      Shrinks(m, j);
      Shrinks(m, k);
      SumWithout(m - {j}, f, k);
      SumWithout(m - {k}, f, j);
      assert m - {j} - {k} == m - {k} - {j};
    }
  }

  lemma SumUpdate<K, V>(m: map<K, V>, f: (K, V) -> int, k: K, v: V)
    ensures MapSum(m[k := v], f) == MapSum(m, f) + f(k, v) - if k in m then f(k, m[k]) else 0
  {
    SumWithout(m[k := v], f, k);
    assert m[k := v] - {k} == m - {k};
    if k in m { SumWithout(m, f, k); } else { assert m - {k} == m; }
  }
}

/** Totals over the values of a map. Go visits map entries in an arbitrary order; in real arithmetic
    the order does not matter, which is what TotalSplit says. */
module Totals {

  ghost function Total<V>(value: V -> real, m: map<string, V>): real
    decreases m.Keys
  {
    if m == map[] then 0.0 else
    var k :| k in m;
    value(m[k]) + Total(value, m - {k})
  }

  lemma {:induction false} TotalSplit<V>(value: V -> real, m: map<string, V>, k: string)
    requires k in m
    ensures Total(value, m) == value(m[k]) + Total(value, m - {k})
    decreases m.Keys
  {
    var j :| j in m && Total(value, m) == value(m[j]) + Total(value, m - {j});
    if j != k {
      TotalSplit(value, m - {j}, k);
      TotalSplit(value, m - {k}, j);
      assert m - {j} - {k} == m - {k} - {j};
    }
  }

  lemma TotalAdd<V>(value: V -> real, m: map<string, V>, k: string, v: V)
    requires k !in m
    ensures Total(value, m[k := v]) == Total(value, m) + value(v)
  {
    TotalSplit(value, m[k := v], k);
    assert m[k := v] - {k} == m;
  }
}

/** Sums over finite maps and over index ranges. */
module Sums {

  ghost function SumOf<K(!new)>(m: map<K, int>): int
    decreases |m|
  {
    if m == map[] then 0
    else
      var k :| k in m;
      m[k] + SumOf(m - {k})
  }

  lemma {:induction false} SumSplits<K(!new)>(m: map<K, int>, k: K)
    requires k in m
    ensures SumOf(m) == m[k] + SumOf(m - {k})
    decreases |m|
  {
    var c :| c in m && SumOf(m) == m[c] + SumOf(m - {c});
    if c != k {
      SumSplits(m - {c}, k);
      SumSplits(m - {k}, c);
      assert m - {c} - {k} == m - {k} - {c};
    }
  }

  lemma SumAdds<K(!new)>(m: map<K, int>, k: K, v: int)
    ensures SumOf(m[k := v]) == SumOf(m - {k}) + v
    ensures SumOf(m) == SumOf(m - {k}) + if k in m then m[k] else 0
  {
    SumSplits(m[k := v], k);
    assert m[k := v] - {k} == m - {k};
    if k in m {
      SumSplits(m, k);
    } else {
      assert m - {k} == m;
    }
  }
}

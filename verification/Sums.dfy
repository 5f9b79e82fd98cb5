/** Sums over finite maps and sequences. */
module Sums {

  ghost function SumOf<K>(m: map<K, int>): int
    decreases |m|
  {
    if m == map[] then 0
    else
      var k :| k in m;
      m[k] + SumOf(m - {k})
  }

  /** The sum does not depend on the order of choice. */
  lemma {:induction false} SumRemove<K>(m: map<K, int>, k: K)
    requires k in m
    ensures SumOf(m) == m[k] + SumOf(m - {k})
    decreases |m|
  {
    var j :| j in m && SumOf(m) == m[j] + SumOf(m - {j});
    if j != k {
      SumRemove(m - {j}, k);
      SumRemove(m - {k}, j);
      assert m - {j} - {k} == m - {k} - {j};
    }
  }

  lemma SumInsert<K>(m: map<K, int>, k: K, v: int)
    requires k !in m
    ensures SumOf(m[k := v]) == SumOf(m) + v
  {
    SumRemove(m[k := v], k);
    assert m[k := v] - {k} == m;
  }

  lemma SumUpdate<K>(m: map<K, int>, k: K, v: int)
    requires k in m
    ensures SumOf(m[k := v]) == SumOf(m) - m[k] + v
  {
    SumRemove(m, k);
    SumInsert(m - {k}, k, v);
    assert (m - {k})[k := v] == m[k := v];
  }

  /** Leaving out nonnegative entries does not raise a sum. */
  lemma {:induction false} SumMonotone<K>(part: map<K, int>, whole: map<K, int>)
    requires forall k | k in part :: k in whole && whole[k] == part[k]
    requires forall k | k in whole :: whole[k] >= 0
    ensures 0 <= SumOf(part) <= SumOf(whole)
    decreases |whole|
  {
    if whole == map[] {
      assert part == map[];
    } else {
      var k :| k in whole;
      SumRemove(whole, k);
      if k in part {
        SumRemove(part, k);
      } else {
        assert part - {k} == part;
      }
      SumMonotone(part - {k}, whole - {k});
    }
  }
}

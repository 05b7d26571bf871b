/** Sums over the values of a finite map. */
module MapSums {
  /** The sum of all values, in whatever order they are taken. */
  ghost function Sum<K>(m: map<K, int>): int {
    if m == map[] then 0 else
      var k :| k in m;
      m[k] + Sum(m - {k})
  }

  lemma {:induction false} SumRemove<K>(m: map<K, int>, k: K)
    requires k in m
    ensures Sum(m) == m[k] + Sum(m - {k})
    decreases |m|
  {
    var j :| j in m && Sum(m) == m[j] + Sum(m - {j});
    if j != k {
      assert (m - {j}).Keys == m.Keys - {j} && (m - {k}).Keys == m.Keys - {k};
      SumRemove(m - {j}, k);
      SumRemove(m - {k}, j);
      assert m - {j} - {k} == m - {k} - {j};
    }
  }

  /** Changing one entry changes the sum by the difference. */
  lemma SumUpdate<K>(m: map<K, int>, k: K, v: int)
    ensures Sum(m[k := v]) == Sum(m) - (if k in m then m[k] else 0) + v
  {
    SumRemove(m[k := v], k);
    assert m[k := v] - {k} == m - {k};
    if k in m {
      SumRemove(m, k);
    } else {
      assert m - {k} == m;
    }
  }

  lemma {:induction false} SumNonNegative<K>(m: map<K, int>)
    requires forall k :: k in m ==> m[k] >= 0
    ensures Sum(m) >= 0
    decreases |m|
  {
    if m != map[] {
      var k :| k in m;
      assert (m - {k}).Keys == m.Keys - {k};
      SumRemove(m, k);
      SumNonNegative(m - {k});
    }
  }

  /** A sum of values that are pointwise bounded is bounded by the sum of the bounds. */
  lemma {:induction false} SumMonotone<K>(a: map<K, int>, b: map<K, int>)
    requires a.Keys == b.Keys && forall k :: k in a ==> a[k] <= b[k]
    ensures Sum(a) <= Sum(b)
    decreases |a|
  {
    if a != map[] {
      var k :| k in a;
      assert (a - {k}).Keys == a.Keys - {k};
      SumRemove(a, k);
      SumRemove(b, k);
      SumMonotone(a - {k}, b - {k});
    }
  }
}

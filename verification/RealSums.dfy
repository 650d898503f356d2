/** Sums of the values of a finite map of reals. */
module RealSums {
  ghost function Total<K>(m: map<K, real>): real {
    if m == map[] then 0.0
    else
      var k :| k in m;
      m[k] + Total(m - {k})
  }

  lemma {:induction false} TotalSplits<K>(m: map<K, real>, k: K)
    requires k in m
    ensures Total(m) == m[k] + Total(m - {k})
    decreases |m|
  {
    var first :| first in m && Total(m) == m[first] + Total(m - {first});
    if first != k {
      TotalSplits(m - {first}, k);
      TotalSplits(m - {k}, first);
      assert m - {first} - {k} == m - {k} - {first};
    }
  }

  /** Changing or adding one entry changes the sum by that entry's difference. */
  lemma TotalAfterUpdate<K>(m: map<K, real>, k: K, v: real)
    ensures Total(m[k := v]) == Total(m) + v - (if k in m then m[k] else 0.0)
  {
    TotalSplits(m[k := v], k);
    assert m[k := v] - {k} == m - {k};
    if k in m {
      TotalSplits(m, k);
    } else {
      assert m - {k} == m;
    }
  }

  lemma {:induction false} TotalOfSum<K>(a: map<K, real>, b: map<K, real>, c: map<K, real>)
    requires a.Keys == b.Keys == c.Keys && forall k | k in a :: c[k] == a[k] + b[k]
    ensures Total(c) == Total(a) + Total(b)
    decreases |a|
  {
    if a == map[] {
      assert b == map[] && c == map[];
    } else {
      var k :| k in a;
      TotalSplits(a, k);
      TotalSplits(b, k);
      TotalSplits(c, k);
      TotalOfSum(a - {k}, b - {k}, c - {k});
    }
  }

  lemma {:induction false} TotalMonotone<K>(a: map<K, real>, b: map<K, real>)
    requires a.Keys == b.Keys && forall k | k in a :: a[k] <= b[k]
    ensures Total(a) <= Total(b)
    decreases |a|
  {
    if a == map[] {
      assert b == map[];
    } else {
      var k :| k in a;
      TotalSplits(a, k);
      TotalSplits(b, k);
      TotalMonotone(a - {k}, b - {k});
    }
  }
}

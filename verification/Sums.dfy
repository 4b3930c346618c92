/** Totals over finite maps. */
module Sums {

  ghost function Sum(m: map<int, int>): int
  {
    if forall k :: k !in m then 0 else
      var k :| k in m;
      m[k] + Sum(m - {k})
  }

  lemma {:induction false} SumRemove(m: map<int, int>, k: int)
    requires k in m
    ensures Sum(m) == m[k] + Sum(m - {k})
    decreases |m|
  {
    var j :| j in m && Sum(m) == m[j] + Sum(m - {j});
    if j != k {
      SumRemove(m - {j}, k);
      SumRemove(m - {k}, j);
      assert (m - {j}) - {k} == (m - {k}) - {j};
    }
  }

  lemma SumAdd(m: map<int, int>, k: int, v: int)
    requires k !in m
    ensures Sum(m[k := v]) == Sum(m) + v
  {
    SumRemove(m[k := v], k);
    assert m[k := v] - {k} == m;
  }

  lemma {:induction false} SumNonNegative(m: map<int, int>)
    requires forall k :: k in m ==> m[k] >= 0
    ensures Sum(m) >= 0
    decreases |m|
  {
    if k :| k in m {
      SumRemove(m, k);
      SumNonNegative(m - {k});
    }
  }

  /** A map whose entries fall into two groups. */
  lemma {:induction false} SumParts(m: map<int, int>, a: map<int, int>, b: map<int, int>)
    requires forall k :: k in m <==> k in a || k in b
    requires forall k :: k in a ==> k !in b && m[k] == a[k]
    requires forall k :: k in b ==> m[k] == b[k]
    ensures Sum(m) == Sum(a) + Sum(b)
    decreases |m|
  {
    if k :| k in m {
      SumRemove(m, k);
      if k in a {
        SumRemove(a, k);
        SumParts(m - {k}, a - {k}, b);
      } else {
        SumRemove(b, k);
        SumParts(m - {k}, a, b - {k});
      }
    }
  }

  /** Disjoint intervals between `lo` and `hi` have no more than `hi - lo` cells together. */
  lemma {:induction false} SumFits(m: map<int, int>, lo: int, hi: int)
    requires lo <= hi && forall k :: k in m ==> lo <= k && 0 < m[k] && k + m[k] <= hi
    requires forall j, k :: j in m && k in m && j < k ==> j + m[j] <= k
    ensures Sum(m) <= hi - lo
    decreases |m|
  {
    if k :| k in m {
      var top := Highest(m, k);
      SumRemove(m, top);
      SumFits(m - {top}, lo, top);
    }
  }

  lemma {:induction false} Highest(m: map<int, int>, k: int) returns (top: int)
    requires k in m
    ensures top in m && forall j :: j in m ==> j <= top
    decreases |m|
  {
    if j :| j in m - {k} {
      var t := Highest(m - {k}, j);
      top := if t < k then k else t;
      forall i | i in m ensures i <= top { if i != k { assert i in m - {k}; } }
    } else {
      top := k;
      forall i | i in m ensures i <= k { assert i !in m - {k}; }
    }
  }
}

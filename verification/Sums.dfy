/** Sums over the values of a finite map, and counts as sums of zeros and ones. */
module Sums {

  ghost function Sum<K(!new)>(m: map<K, int>): int {
    if m == map[] then 0
    else
      var k :| k in m;
      m[k] + Sum(m - {k})
  }

  lemma {:induction false} SumRemove<K(!new)>(m: map<K, int>, k: K)
    requires k in m
    ensures Sum(m) == m[k] + Sum(m - {k})
  {
    var j :| j in m && Sum(m) == m[j] + Sum(m - {j});
    if j != k {
      SumRemove(m - {j}, k);
      SumRemove(m - {k}, j);
      assert m - {j} - {k} == m - {k} - {j};
    }
  }

  function At<K>(m: map<K, int>, k: K): int {
    if k in m then m[k] else 0
  }

  /** Writing one entry changes the sum by the difference. */
  lemma SumPut<K(!new)>(m: map<K, int>, k: K, v: int)
    ensures Sum(m[k := v]) == Sum(m) - At(m, k) + v
  {
    var m' := m[k := v];
    SumRemove(m', k);
    assert m' - {k} == m - {k};
    if k in m {
      SumRemove(m, k);
    } else {
      assert m - {k} == m;
    }
  }

  ghost predicate ZeroOne<K(!new)>(m: map<K, int>) {
    forall k :: k in m ==> m[k] == 0 || m[k] == 1
  }

  ghost function Ones<K(!new)>(m: map<K, int>): set<K> {
    set k | k in m && m[k] == 1
  }

  /** A sum of zeros and ones counts the ones. */
  lemma {:induction false} SumCounts<K(!new)>(m: map<K, int>)
    requires ZeroOne(m)
    ensures Sum(m) == |Ones(m)|
  {
    if m == map[] {
      assert Ones(m) == {};
    } else {
      var k :| k in m && Sum(m) == m[k] + Sum(m - {k});
      SumCounts(m - {k});
      if m[k] == 1 {
        assert Ones(m) == Ones(m - {k}) + {k};
      } else {
        assert Ones(m) == Ones(m - {k});
      }
    }
  }
}

/** The sum of a map's values. */
module MapSum {

  ghost function Sum<K>(m: map<K, int>): int
    decreases |m|
  {
    if m == map[] then 0
    else
      var k :| k in m;
      m[k] + Sum(m - {k})
  }

  /** The sum does not depend on the order in which the keys are taken. */
  lemma {:induction false} SumWithout<K>(m: map<K, int>, k: K)
    requires k in m
    ensures Sum(m) == m[k] + Sum(m - {k})
    decreases |m|
  {
    var first :| first in m && Sum(m) == m[first] + Sum(m - {first});
    if first != k {
      SumWithout(m - {first}, k);
      SumWithout(m - {k}, first);
      assert m - {first} - {k} == m - {k} - {first};
    }
  }

  /** A map whose values are the multiplicities of a multiset sums to its size. */
  lemma {:induction false} SumOfHistogram<K>(m: map<K, int>, all: multiset<K>)
    requires forall k :: all[k] == if k in m then m[k] else 0
    ensures Sum(m) == |all|
    decreases |m|
  {
    if m == map[] {
      assert all == multiset{};
    } else {
      var k :| k in m;
      SumWithout(m, k);
      SumOfHistogram(m - {k}, all[k := 0]);
      assert |all| == |all[k := 0]| + all[k];
    }
  }

  /** Part of a map sums to less, unless what is left out is zero. */
  lemma {:induction false} SumOfPart<K>(part: map<K, int>, m: map<K, int>)
    requires part.Keys <= m.Keys && forall k :: k in part ==> part[k] == m[k]
    requires forall k :: k in m ==> m[k] > 0
    ensures Sum(part) <= Sum(m)
    ensures Sum(part) == Sum(m) <==> part == m
    decreases |m|
  {
    if m == map[] {
      assert part == m;
    } else {
      var k :| k in m;
      SumWithout(m, k);
      if k in part {
        SumWithout(part, k);
        SumOfPart(part - {k}, m - {k});
        assert part == m <==> part - {k} == m - {k} by {
          if part - {k} == m - {k} {
            assert part == (part - {k})[k := m[k]] && m == (m - {k})[k := m[k]];
          }
        }
      } else {
        SumOfPart(part, m - {k});
      }
    }
  }
}

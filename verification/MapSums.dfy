/** Sums of the values of a finite map. */
module MapSums {

  ghost function SumMap<K(!new)>(m: map<K, int>): int
    decreases |m|
  {
    if m == map[] then 0
    else
      var k :| k in m;
      m[k] + SumMap(m - {k})
  }

  /** Any key may be taken out first. */
  lemma {:induction false} SumMapWithout<K(!new)>(m: map<K, int>, k: K)
    requires k in m
    ensures SumMap(m) == m[k] + SumMap(m - {k})
    decreases |m|
  {
    var first :| first in m && SumMap(m) == m[first] + SumMap(m - {first});
    if first != k {
      SumMapWithout(m - {first}, k);
      SumMapWithout(m - {k}, first);
      assert m - {first} - {k} == m - {k} - {first};
    }
  }

  lemma SumMapUpdate<K(!new)>(m: map<K, int>, k: K, v: int)
    ensures SumMap(m[k := v]) == SumMap(m) - (if k in m then m[k] else 0) + v
  {
    SumMapWithout(m[k := v], k);
    assert m[k := v] - {k} == m - {k};
    if k in m {
      SumMapWithout(m, k);
    } else {
      assert m - {k} == m;
    }
  }

  lemma {:induction false} SumMapNatural<K(!new)>(m: map<K, int>)
    requires forall k :: k in m ==> m[k] >= 0
    ensures SumMap(m) >= 0
    ensures forall k :: k in m ==> m[k] <= SumMap(m)
    decreases |m|
  {
    forall k | k in m ensures m[k] <= SumMap(m) && SumMap(m) >= 0 {
      SumMapWithout(m, k);
      SumMapNatural(m - {k});
    }
  }
}

/** Sums over the bindings of a finite map. */
module MapSum {

  ghost function Sum<K(!new), V>(m: map<K, V>, weight: (K, V) -> nat): nat
    decreases m.Keys
  {
    if m == map[] then 0
    else
      var k :| k in m;
      weight(k, m[k]) + Sum(m - {k}, weight)
  }

  /** Any binding can be taken out first. */
  lemma {:induction false} SumWithout<K(!new), V>(m: map<K, V>, weight: (K, V) -> nat, k: K)
    requires k in m
    ensures Sum(m, weight) == weight(k, m[k]) + Sum(m - {k}, weight)
    decreases m.Keys
  {
    var first :| first in m && Sum(m, weight) == weight(first, m[first]) + Sum(m - {first}, weight);
    if first != k {
      SumWithout(m - {first}, weight, k);
      SumWithout(m - {k}, weight, first);
      assert (m - {first}) - {k} == (m - {k}) - {first};
    }
  }

  lemma SumUpdated<K(!new), V>(m: map<K, V>, weight: (K, V) -> nat, k: K, v: V)
    ensures Sum(m[k := v], weight) + (if k in m then weight(k, m[k]) else 0)
         == Sum(m, weight) + weight(k, v)
  {
    SumWithout(m[k := v], weight, k);
    assert m[k := v] - {k} == m - {k};
    if k in m {
      SumWithout(m, weight, k);
    } else {
      assert m - {k} == m;
    }
  }
}

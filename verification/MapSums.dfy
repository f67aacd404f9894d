/** Sums over the values of a map, taken in any order. */
module MapSums {
  ghost function Sum<K, V>(weight: V -> nat, m: map<K, V>): nat
    decreases |m|
  {
    if m == map[] then 0 else
      KeyExists(m);
      var k :| k in m;
      Smaller(m, k);
      weight(m[k]) + Sum(weight, m - {k})
  }

  lemma KeyExists<K, V>(m: map<K, V>)
    requires m != map[]
    ensures exists k :: k in m
  {
    assert (forall k | k in m :: false) ==> m == map[];
  }

  lemma Smaller<K, V>(m: map<K, V>, k: K)
    requires k in m
    ensures |m - {k}| < |m|
  {
    assert (m - {k}).Keys == m.Keys - {k};
  }

  /** Any key can be taken out of the sum first. */
  lemma {:induction false} SumWithout<K, V>(weight: V -> nat, m: map<K, V>, k: K)
    requires k in m
    ensures Sum(weight, m) == weight(m[k]) + Sum(weight, m - {k})
    decreases |m|
  {
    KeyExists(m);
    var p :| p in m && Sum(weight, m) == weight(m[p]) + Sum(weight, m - {p});
    if p != k {
      Smaller(m, p);
      SumWithout(weight, m - {p}, k);
      Smaller(m, k);
      SumWithout(weight, m - {k}, p);
      assert m - {p} - {k} == m - {k} - {p};
    }
  }

  lemma SumSet<K, V>(weight: V -> nat, m: map<K, V>, k: K, v: V)
    ensures Sum(weight, m[k := v]) == weight(v) + Sum(weight, m - {k})
    ensures Sum(weight, m) == (if k in m then weight(m[k]) else 0) + Sum(weight, m - {k})
  {
    SumWithout(weight, m[k := v], k);
    assert m[k := v] - {k} == m - {k};
    if k in m {
      SumWithout(weight, m, k);
    } else {
      assert m - {k} == m;
    }
  }
}

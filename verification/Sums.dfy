/** Sums over the values of a map, where weigh(v, r) is how much v counts towards r. */
module Sums {

  ghost function Total<K, V, R>(m: map<K, V>, weigh: (V, R) -> nat, r: R): nat {
    if m == map[] then 0
    else
      var k :| k in m;
      weigh(m[k], r) + Total(m - {k}, weigh, r)
  }

  /** The sum does not depend on the order of enumeration. */
  lemma {:induction false} TotalRemove<K, V, R>(m: map<K, V>, weigh: (V, R) -> nat, k: K, r: R)
    requires k in m
    ensures Total(m, weigh, r) == weigh(m[k], r) + Total(m - {k}, weigh, r)
    decreases m
  {
    var first :| first in m && Total(m, weigh, r) == weigh(m[first], r) + Total(m - {first}, weigh, r);
    if first != k {
      TotalRemove(m - {first}, weigh, k, r);
      TotalRemove(m - {k}, weigh, first, r);
      assert m - {first} - {k} == m - {k} - {first};
    }
  }

  lemma TotalWithout<K, V, R>(m: map<K, V>, weigh: (V, R) -> nat, k: K, r: R)
    ensures Total(m, weigh, r) == (if k in m then weigh(m[k], r) else 0) + Total(m - {k}, weigh, r)
  {
    if k in m { TotalRemove(m, weigh, k, r); } else { assert m - {k} == m; }
  }

  lemma TotalInsert<K, V, R>(m: map<K, V>, weigh: (V, R) -> nat, k: K, v: V, r: R)
    requires k !in m
    ensures Total(m[k := v], weigh, r) == weigh(v, r) + Total(m, weigh, r)
  {
    TotalRemove(m[k := v], weigh, k, r);
    assert m[k := v] - {k} == m;
  }

  lemma {:induction false} TotalWitness<K, V, R>(m: map<K, V>, weigh: (V, R) -> nat, r: R)
    requires Total(m, weigh, r) > 0
    ensures exists k :: k in m && weigh(m[k], r) > 0
    decreases m
  {
    var k :| k in m && Total(m, weigh, r) == weigh(m[k], r) + Total(m - {k}, weigh, r);
    if weigh(m[k], r) == 0 {
      TotalWitness(m - {k}, weigh, r);
      var j :| j in m - {k} && weigh((m - {k})[j], r) > 0;
      assert j in m && weigh(m[j], r) > 0;
    }
  }
}

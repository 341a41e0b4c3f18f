/** Sums over finite maps, used to state conservation of counts. */
module Sums {

  /** The sum of the values of a map. */
  ghost function SumMap<K>(m: map<K, int>): int {
    if |m| == 0 then 0 else m[Pick(m)] + SumMap(m - {Pick(m)})
  }

  ghost function Pick<K>(m: map<K, int>): (k: K)
    requires |m| > 0
    ensures k in m
  {
    var k :| k in m;
    k
  }

  /** Any key may be taken out first. */
  lemma {:induction false} SumWithout<K>(m: map<K, int>, k: K)
    requires k in m
    ensures SumMap(m) == m[k] + SumMap(m - {k})
    decreases |m|
  {
    var j := Pick(m);
    if j != k {
      assert |m - {j}| < |m| && |m - {k}| < |m|;
      SumWithout(m - {j}, k);
      SumWithout(m - {k}, j);
      assert m - {j} - {k} == m - {k} - {j};
    }
  }

  /** Writing one entry moves the sum by the change of that entry. */
  lemma SumUpdate<K>(m: map<K, int>, k: K, v: int)
    ensures SumMap(m[k := v]) == SumMap(m) + v - if k in m then m[k] else 0
  {
    hide SumMap;
    SumWithout(m[k := v], k);
    assert m[k := v] - {k} == m - {k};
    if k in m {
      SumWithout(m, k);
    } else {
      assert m - {k} == m;
    }
  }
}

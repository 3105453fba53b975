/** Sums over the rows of a table. */
module Sums {
  ghost function SumOver<V>(m: map<nat, V>, f: V -> int): int
    decreases |m|
  {
    if m == map[] then 0 else
      var k :| k in m;
      f(m[k]) + SumOver(m - {k}, f)
  }

  /** The sum does not depend on which row is taken out first. */
  lemma {:induction false} SumTakeOut<V>(m: map<nat, V>, f: V -> int, k: nat)
    requires k in m
    ensures SumOver(m, f) == f(m[k]) + SumOver(m - {k}, f)
    decreases |m|
  {
    var j :| j in m && SumOver(m, f) == f(m[j]) + SumOver(m - {j}, f);
    if j != k {
      SumTakeOut(m - {j}, f, k);
      SumTakeOut(m - {k}, f, j);
      assert m - {j} - {k} == m - {k} - {j};
    }
  }

  lemma SumInsert<V>(m: map<nat, V>, f: V -> int, k: nat, v: V)
    requires k !in m
    ensures SumOver(m[k := v], f) == SumOver(m, f) + f(v)
  {
    SumTakeOut(m[k := v], f, k);
    assert m[k := v] - {k} == m;
  }

  lemma SumReplace<V>(m: map<nat, V>, f: V -> int, k: nat, v: V)
    requires k in m
    ensures SumOver(m[k := v], f) == SumOver(m, f) - f(m[k]) + f(v)
  {
    SumTakeOut(m[k := v], f, k);
    SumTakeOut(m, f, k);
    assert m[k := v] - {k} == m - {k};
  }
}

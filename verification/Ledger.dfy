/** Account books: amounts by key, and what they add up to. */
module Ledgers {
  function Amount<K(==)>(m: map<K, int>, k: K): int {
    if k in m then m[k] else 0
  }

  function Credit<K(==)>(m: map<K, int>, k: K, amount: int): map<K, int> {
    m[k := Amount(m, k) + amount]
  }

  /** Everything the book holds. */
  ghost function Sum<K(!new)>(m: map<K, int>): int
    decreases |m|
  {
    if m == map[] then 0 else
      var k :| k in m;
      assert |m - {k}| < |m| by { FewerLeft(m, k); }
      m[k] + Sum(m - {k})
  }

  lemma FewerLeft<K(!new)>(m: map<K, int>, k: K)
    requires k in m
    ensures |m - {k}| < |m|
  {
    assert (m - {k}).Keys == m.Keys - {k};
  }

  /** The sum may be taken apart at any key. */
  lemma {:induction false} SumAt<K(!new)>(m: map<K, int>, k: K)
    requires k in m
    ensures Sum(m) == m[k] + Sum(m - {k})
    decreases |m|
  {
    var j :| j in m && Sum(m) == m[j] + Sum(m - {j});
    if j != k {
      FewerLeft(m, j);
      SumAt(m - {j}, k);
      FewerLeft(m, k);
      SumAt(m - {k}, j);
      assert m - {j} - {k} == m - {k} - {j};
    }
  }

  /** Crediting an account adds to the sum. */
  lemma SumCredited<K(!new)>(m: map<K, int>, k: K, amount: int)
    ensures Sum(Credit(m, k, amount)) == Sum(m) + amount
  {
    var m' := Credit(m, k, amount);
    SumAt(m', k);
    if k in m {
      SumAt(m, k);
      assert m' - {k} == m - {k};
    } else {
      assert m' - {k} == m;
    }
  }
}

/** Integer division of naturals, one small step at a time. */
module Division {

  lemma FactorBelow(n: nat, q: nat, k: nat)
    requires n * q < n * k
    ensures q < k
  {
  }

  lemma Below(a: nat, b: nat, n: nat)
    requires a <= b
    ensures a * n <= n * b
  {
  }

  lemma Distribute(a: nat, b: nat, d: nat)
    ensures (a + b) * d == a * d + b * d
  {
  }

  lemma Remainder(a: nat, d: nat)
    requires d > 0
    ensures a / d * d <= a < a / d * d + d && a == a / d * d + a % d
  {
  }

  lemma QuotientIs(a: nat, n: nat, k: nat)
    requires n > 0
    ensures a / n == k <==> k * n <= a < (k + 1) * n
  {
    var q := a / n;
    assert q * n <= a < q * n + n;
    if q < k { assert (q + 1) * n <= k * n; }
    if k < q { assert (k + 1) * n <= q * n; }
  }

  function CeilDiv(a: nat, d: nat): nat
    requires d > 0
  {
    (a + d - 1) / d
  }

  /** The ceiling is the least number of times `d` that reaches `a`. */
  lemma CeilingAtMost(a: nat, d: nat, r: nat)
    requires d > 0
    ensures CeilDiv(a, d) <= r <==> a <= r * d
  {
    var q := CeilDiv(a, d);
    assert q * d <= a + d - 1 < q * d + d;
    if q <= r {
      assert q * d <= r * d;
    } else {
      assert (r + 1) * d <= q * d;
    }
  }

  lemma SumOfQuotients(a: nat, b: nat, d: nat, u: nat, v: nat)
    requires d > 0 && u * d <= a < u * d + d && v * d <= b < v * d + d
    ensures (a + b) / d in {u + v, u + v + 1}
  {
    Distribute(u, v, d);
    Distribute(u + v, 1, d);
    Distribute(u + v + 1, 1, d);
    QuotientIs(a + b, d, u + v);
    QuotientIs(a + b, d, u + v + 1);
  }

  lemma QuotientOfSum(a: nat, b: nat, d: nat)
    requires d > 0
    ensures (a + b) / d in {a / d + b / d, a / d + b / d + 1}
  {
    Remainder(a, d);
    Remainder(b, d);
    SumOfQuotients(a, b, d, a / d, b / d);
  }
}

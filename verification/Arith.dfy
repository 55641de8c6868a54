// Facts about products and quotients of natural numbers that several parts need.

module Arith {

  lemma MulMonotone(x: nat, y: nat, k: nat)
    requires x <= y
    ensures x * k <= y * k
  {
  }

  /** A quotient is at least x exactly when x divisors fit. */
  lemma DivBelow(c: nat, x: nat, k: nat)
    requires k > 0
    ensures x <= c / k <==> x * k <= c
  {
    var q := c / k;
    assert c == q * k + c % k;
    assert (q + 1) * k == q * k + k;
    if x <= q {
      MulMonotone(x, q, k);
    } else {
      MulMonotone(q + 1, x, k);
    }
  }

  lemma DivAntitone(c: nat, i: nat, j: nat)
    requires 0 < i <= j
    ensures c / j <= c / i
  {
    var q := c / j;
    DivBelow(c, q, j);
    MulMonotone(i, j, q);
    assert q * i == i * q && q * j == j * q;
    DivBelow(c, q, i);
  }

  lemma DivModOf(q: nat, m: nat, r: nat)
    requires r < m
    ensures (q * m + r) / m == q && (q * m + r) % m == r
  {
    var k := q * m + r;
    assert (q + 1) * m == q * m + m;
    DivBelow(k, q, m);
    DivBelow(k, q + 1, m);
    assert k == k / m * m + k % m;
  }

  lemma SmallQuotient(k: nat, n: nat, d: nat)
    requires d > 0 && k < n * d
    ensures k / d < n
  {
    DivBelow(k, n, d);
  }

  /** Position y of slot x, counted with d positions to a slot. */
  lemma NextBelow(x: nat, y: nat, n: nat, d: nat)
    requires x < n && y < d
    ensures x * d + y < n * d
  {
    MulMonotone(x + 1, n, d);
    assert (x + 1) * d == x * d + d;
  }

  lemma AtLeastFactor(x: nat, y: nat)
    requires x > 0 && y > 0
    ensures x <= x * y && y <= x * y
  {
  }
}

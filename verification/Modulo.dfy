/** Remainders, as the ring buffers use them. */
module Modulo {

  lemma Quotient(p: int, d: int, e: int)
    requires p * d == e && -p < e < p
    ensures d == 0
  {
    assert d >= 1 ==> p * d >= p;
    assert d <= -1 ==> p * d <= -p;
  }

  lemma MulMod(q: int, p: int, r: int)
    requires 0 <= r < p
    ensures (q * p + r) % p == r
  {
    var m := q * p + r;
    assert m == p * (m / p) + m % p;
    assert p * (m / p - q) == p * (m / p) - q * p;
    Quotient(p, m / p - q, r - m % p);
  }

  lemma MulDiv(q: int, p: int, r: int)
    requires 0 <= r < p
    ensures (q * p + r) / p == q
  {
    var m := q * p + r;
    MulMod(q, p, r);
    assert m == p * (m / p) + m % p;
    assert p * (m / p - q) == p * (m / p) - q * p == 0;
    Quotient(p, m / p - q, 0);
  }

  lemma AddMultiple(x: int, q: int, n: int)
    requires n > 0
    ensures (q * n + x) % n == x % n
  {
    assert x == n * (x / n) + x % n;
    assert (q + x / n) * n == q * n + n * (x / n);
    MulMod(q + x / n, n, x % n);
  }

  lemma SmallMod(x: int, n: int)
    requires 0 <= x < n
    ensures x % n == x
  {
    MulMod(0, n, x);
  }

  lemma WrapMod(x: int, n: int)
    requires n > 0 && n <= x < 2 * n
    ensures x % n == x - n
  {
    MulMod(1, n, x - n);
  }
}

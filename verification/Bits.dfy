/** Powers of two and the bitwise operators on unbounded naturals. */
module Bits {

  function Pow2(n: nat): (p: nat)
    ensures p >= 1
  {
    if n == 0 then 1 else 2 * Pow2(n - 1)
  }

  lemma {:induction false} Pow2Sum(a: nat, b: nat)
    ensures Pow2(a + b) == Pow2(a) * Pow2(b)
  {
    if a > 0 {
      Pow2Sum(a - 1, b);
      assert Pow2(a) * Pow2(b) == 2 * (Pow2(a - 1) * Pow2(b));
    }
  }

  lemma {:induction false} Pow2Monotone(a: nat, b: nat)
    requires a <= b
    ensures Pow2(a) <= Pow2(b)
    decreases b - a
  {
    if a < b {
      Pow2Monotone(a + 1, b);
    }
  }

  lemma MulMonotone(a: nat, b: nat, c: nat, d: nat)
    requires a <= c && b <= d
    ensures a * b <= c * d
  {
    assert a * b <= c * b;
    assert c * b <= c * d;
  }

  // ---------------------------------------------------------------- shifts

  /** `x << n` */
  function Shl(x: nat, n: nat): nat {
    if n == 0 then x else 2 * Shl(x, n - 1)
  }

  /** `x >> n` */
  function Shr(x: nat, n: nat): nat {
    if n == 0 then x else Shr(x / 2, n - 1)
  }

  /** The lowest `n` bits of `x`. */
  function Low(x: nat, n: nat): (r: nat)
    ensures r < Pow2(n)
  {
    if n == 0 then 0 else x % 2 + 2 * Low(x / 2, n - 1)
  }

  lemma {:induction false} SplitBits(x: nat, n: nat)
    ensures x == Shl(Shr(x, n), n) + Low(x, n)
  {
    if n > 0 {
      SplitBits(x / 2, n - 1);
    }
  }

  lemma {:induction false} ShrShl(x: nat, n: nat, r: nat)
    requires r < Pow2(n)
    ensures Shr(Shl(x, n) + r, n) == x && Low(Shl(x, n) + r, n) == r
  {
    if n > 0 {
      assert (Shl(x, n) + r) / 2 == Shl(x, n - 1) + r / 2 && (Shl(x, n) + r) % 2 == r % 2;
      ShrShl(x, n - 1, r / 2);
    }
  }

  lemma {:induction false} ShrShr(x: nat, m: nat, n: nat)
    ensures Shr(x, m + n) == Shr(Shr(x, m), n)
  {
    if m > 0 {
      ShrShr(x / 2, m - 1, n);
    }
  }

  // ---------------------------------------------------------------- bitwise operators

  function And(a: nat, b: nat): nat
    decreases a
  {
    if a == 0 then 0 else (if a % 2 == 1 && b % 2 == 1 then 1 else 0) + 2 * And(a / 2, b / 2)
  }

  function Or(a: nat, b: nat): nat
    decreases a + b
  {
    if a == 0 && b == 0 then 0 else (if a % 2 == 1 || b % 2 == 1 then 1 else 0) + 2 * Or(a / 2, b / 2)
  }

  function Xor(a: nat, b: nat): nat
    decreases a + b
  {
    if a == 0 && b == 0 then 0 else (if a % 2 != b % 2 then 1 else 0) + 2 * Xor(a / 2, b / 2)
  }

  /** Masking with `n` low ones is `Low`. */
  lemma {:induction false} AndLow(x: nat, n: nat)
    ensures And(x, Pow2(n) - 1) == Low(x, n)
    decreases n
  {
    if n == 0 {
      AndZero(x);
    } else if x > 0 {
      AndLow(x / 2, n - 1);
      assert (Pow2(n) - 1) / 2 == Pow2(n - 1) - 1 && (Pow2(n) - 1) % 2 == 1;
    } else {
      LowOfSmall(0, n);
    }
  }

  lemma {:induction false} AndZero(x: nat)
    ensures And(x, 0) == 0
  {
    if x > 0 {
      AndZero(x / 2);
    }
  }

  lemma {:induction false} LowOfSmall(x: nat, n: nat)
    requires x < Pow2(n)
    ensures Low(x, n) == x && Shr(x, n) == 0
  {
    if n > 0 {
      LowOfSmall(x / 2, n - 1);
    }
  }

  /** Masking with a mask shifted left masks the number shifted right. */
  lemma {:induction false} AndShl(x: nat, mask: nat, n: nat)
    ensures And(x, Shl(mask, n)) == Shl(And(Shr(x, n), mask), n)
    decreases n
  {
    if x == 0 {
      LowOfSmall(0, n);
      ShlZero(n);
    } else if n > 0 {
      AndShl(x / 2, mask, n - 1);
    }
  }

  lemma {:induction false} ShlZero(n: nat)
    ensures Shl(0, n) == 0
  {
    if n > 0 {
      ShlZero(n - 1);
    }
  }

  /** Numbers without common bits add up. */
  lemma {:induction false} OrDisjoint(a: nat, b: nat, n: nat)
    requires Low(a, n) == 0 && b < Pow2(n)
    ensures Or(a, b) == a + b
    decreases n
  {
    if n == 0 {
      OrZero(a);
    } else if a != 0 || b != 0 {
      OrDisjoint(a / 2, b / 2, n - 1);
    }
  }

  lemma {:induction false} OrZero(a: nat)
    ensures Or(a, 0) == a
  {
    if a > 0 {
      OrZero(a / 2);
    }
  }

  lemma {:induction false} XorZero(a: nat)
    ensures Xor(a, 0) == a
  {
    if a > 0 {
      XorZero(a / 2);
    }
  }

  /** `x` is `i` with bit `k` flipped. */
  predicate Flipped(i: nat, k: nat, x: nat) {
    && Low(x, k) == Low(i, k)
    && Shr(x, k) == (if Shr(i, k) % 2 == 0 then Shr(i, k) + 1 else Shr(i, k) - 1)
    && x == (if Shr(i, k) % 2 == 0 then i + Pow2(k) else i - Pow2(k))
  }

  lemma FlippedStep(i: nat, k: nat, x: nat, y: nat)
    requires k > 0 && x == i % 2 + 2 * y && Flipped(i / 2, k - 1, y)
    ensures Flipped(i, k, x)
  {}

  lemma XorStep(i: nat, k: nat)
    requires k > 0
    ensures Xor(i, Pow2(k)) == i % 2 + 2 * Xor(i / 2, Pow2(k - 1))
  {}

  /** Flipping bit `k`. */
  lemma {:induction false} XorPow2(i: nat, k: nat)
    ensures Flipped(i, k, Xor(i, Pow2(k)))
    decreases k
  {
    if k == 0 {
      XorZero(i / 2);
    } else {
      XorPow2(i / 2, k - 1);
      XorStep(i, k);
      FlippedStep(i, k, Xor(i, Pow2(k)), Xor(i / 2, Pow2(k - 1)));
    }
  }

  // ---------------------------------------------------------------- most significant bit

  /** One plus the position of the highest set bit; 0 for 0. */
  function Fls(x: nat): (r: nat)
    ensures x < Pow2(r) && (x > 0 ==> r > 0 && Pow2(r - 1) <= x)
  {
    if x == 0 then 0 else 1 + Fls(x / 2)
  }

  lemma FlsUnique(x: nat, r: nat)
    requires x > 0 && r > 0 && Pow2(r - 1) <= x < Pow2(r)
    ensures Fls(x) == r
  {
    if Fls(x) < r {
      Pow2Monotone(Fls(x), r - 1);
    } else if Fls(x) > r {
      Pow2Monotone(r, Fls(x) - 1);
    }
  }

  lemma {:induction false} FlsShr(x: nat, n: nat)
    requires Shr(x, n) > 0
    ensures Fls(x) == n + Fls(Shr(x, n))
  {
    if n > 0 {
      ShrZero(n - 1);
      FlsShr(x / 2, n - 1);
    }
  }

  lemma {:induction false} ShrZero(n: nat)
    ensures Shr(0, n) == 0
  {
    if n > 0 {
      ShrZero(n - 1);
    }
  }
}

/** include/bitops.h and include/log2.h, and the size classes that `kmalloc` picks with them. */
module Log2 {
  import opened Bits
  import opened Modulo

  const WORD: nat := 0x1_0000_0000

  lemma {:induction false} ShlMul(x: nat, n: nat)
    ensures Shl(x, n) == x * Pow2(n)
  {
    if n > 0 {
      ShlMul(x, n - 1);
      assert 2 * (x * Pow2(n - 1)) == x * (2 * Pow2(n - 1));
    }
  }

  lemma LowIsMod(x: nat, k: nat)
    ensures Low(x, k) == x % Pow2(k)
  {
    SplitBits(x, k);
    ShlMul(Shr(x, k), k);
    MulMod(Shr(x, k), Pow2(k), Low(x, k));
  }

  lemma ShrIsDiv(x: nat, n: nat)
    ensures Shr(x, n) == x / Pow2(n)
  {
    SplitBits(x, n);
    ShlMul(Shr(x, n), n);
    MulDiv(Shr(x, n), Pow2(n), Low(x, n));
  }

  lemma Powers()
    ensures Pow2(1) == 2 && Pow2(2) == 4 && Pow2(3) == 8 && Pow2(4) == 16 && Pow2(7) == 128 && Pow2(8) == 0x100
    ensures Pow2(10) == 0x400 && Pow2(12) == 0x1000 && Pow2(16) == 0x1_0000 && Pow2(19) == 0x8_0000
    ensures Pow2(20) == 0x10_0000 && Pow2(32) == WORD
  {
    assert Pow2(1) == 2 && Pow2(2) == 4 && Pow2(3) == 8 && Pow2(4) == 16;
    Pow2Sum(4, 3);
    Pow2Sum(4, 4);
    Pow2Sum(8, 2);
    Pow2Sum(8, 4);
    Pow2Sum(8, 8);
    Pow2Sum(16, 3);
    Pow2Sum(16, 4);
    Pow2Sum(16, 16);
  }

  lemma {:induction false} ShrBound(x: nat, m: nat, n: nat)
    requires x < Pow2(m + n)
    ensures Shr(x, n) < Pow2(m)
    decreases n
  {
    if n > 0 {
      ShrBound(x / 2, m, n - 1);
    }
  }

  lemma {:induction false} ShlPositive(x: nat, n: nat)
    ensures Shl(x, n) > 0 <==> x > 0
  {
    if n > 0 {
      ShlPositive(x, n - 1);
    }
  }

  /** Testing the upper half of a word of `2 * n` bits tells whether anything is in it. */
  lemma UpperHalf(x: nat, n: nat)
    requires x < Pow2(n + n)
    ensures And(x, Shl(Pow2(n) - 1, n)) != 0 <==> Shr(x, n) > 0
    ensures Shr(x, n) < Pow2(n) && (Shr(x, n) == 0 ==> x < Pow2(n))
  {
    var y := Shr(x, n);
    ShrBound(x, n, n);
    AndShl(x, Pow2(n) - 1, n);
    AndLow(y, n);
    LowOfSmall(y, n);
    ShlPositive(y, n);
    SplitBits(x, n);
  }

  /** The links of the chain: shift, mask, and bounds on the word before and after. */
  predicate Link(n: nat, mask: nat, before: nat, after: nat) {
    || (n == 16 && mask == 0xffff0000 && before == 0x1_0000_0000 && after == 0x1_0000)
    || (n == 8 && mask == 0xff00 && before == 0x1_0000 && after == 0x100)
    || (n == 4 && mask == 0xf0 && before == 0x100 && after == 0x10)
    || (n == 2 && mask == 0xc && before == 0x10 && after == 4)
    || (n == 1 && mask == 0x2 && before == 4 && after == 2)
  }

  lemma LinkFacts(n: nat, mask: nat, before: nat, after: nat)
    requires Link(n, mask, before, after)
    ensures Pow2(n) == after && Pow2(n + n) == before && mask == Shl(Pow2(n) - 1, n)
  {
    Powers();
    Pow2Sum(n, n);
    ShlMul(Pow2(n) - 1, n);
  }

  /** Drop the lower `n` bits if the upper `n` are not all clear. */
  method Halve(x0: nat, r0: nat, n: nat, mask: nat, ghost before: nat, ghost after: nat) returns (x: nat, r: nat)
    requires Link(n, mask, before, after) && 0 < x0 < before
    ensures 0 < x < after && r + Fls(x) == r0 + Fls(x0)
  {
    x, r := x0, r0;
    LinkFacts(n, mask, before, after);
    UpperHalf(x, n);
    if And(x, mask) != 0 {
      FlsShr(x, n);
      x, r := Shr(x, n), r + n;
    }
  }

  /** `fls`: the chain of masks and shifts finds the highest set bit of every 32-bit word. */
  method FlsCode(x0: nat) returns (r: nat)
    requires x0 < WORD
    ensures r == Fls(x0)
  {
    var x := x0;
    r := 0;
    if x == 0 {
      return;
    }
    x, r := Halve(x, r, 16, 0xffff0000, WORD, 0x1_0000);
    x, r := Halve(x, r, 8, 0xff00, 0x1_0000, 0x100);
    x, r := Halve(x, r, 4, 0xf0, 0x100, 0x10);
    x, r := Halve(x, r, 2, 0xc, 0x10, 4);
    x, r := Halve(x, r, 1, 0x2, 4, 2);
    if And(x, 0x1) != 0 {
      r := r + 1;
    }
  }

  function Ilog2Roundup(n: nat): nat {
    if n == 0 then 0 else Fls(n - 1)
  }

  /** `ilog2`, the macro for rounding down. */
  function Ilog2(n: nat): nat
    requires n > 0
  {
    Fls(n) - 1
  }

  lemma RoundupSmallest(n: nat, r: nat)
    ensures n <= Pow2(Ilog2Roundup(n))
    ensures n <= Pow2(r) ==> Ilog2Roundup(n) <= r
  {
    if n > 1 && n <= Pow2(r) && Fls(n - 1) > r {
      Pow2Monotone(r, Fls(n - 1) - 1);
    }
  }

  lemma RounddownLargest(n: nat, r: nat)
    requires n > 0
    ensures Pow2(Ilog2(n)) <= n < 2 * Pow2(Ilog2(n))
    ensures Pow2(r) <= n ==> r <= Ilog2(n)
  {
    if Pow2(r) <= n && r >= Fls(n) {
      Pow2Monotone(Fls(n), r);
    }
  }

  /** A block of rounded-down order `i` holds any request of rounded-up order at most `i`. */
  lemma ClassFits(have: nat, want: nat)
    requires have > 0 && Ilog2Roundup(want) <= Ilog2(have)
    ensures want <= have
  {
    RoundupSmallest(want, 0);
    RounddownLargest(have, 0);
    Pow2Monotone(Ilog2Roundup(want), Ilog2(have));
  }

  // ---------------------------------------------------------------- kmalloc

  const MIN_SIZE: nat := 8
  const PAGE_SIZE: nat := 0x1000
  const KMEM_CACHE_MAX_ORDER: nat := 7
  const KMEM_CACHE_MAX_SIZE: nat := 1024

  /** `round_up` on 32-bit words, which wraps near the top. */
  function RoundUp(a: nat, n: nat): (r: nat)
    requires n > 0
  {
    var b := (a + n - 1) % WORD;
    b - b % n
  }

  datatype Choice = Cache(order: nat) | Pages(order: nat)

  /** What `kmalloc` asks for once the caches are up. */
  function KmallocChoice(size: nat): Choice {
    if size <= KMEM_CACHE_MAX_SIZE then Cache(Ilog2Roundup(RoundUp(size, MIN_SIZE) / MIN_SIZE))
    else Pages(Ilog2Roundup(RoundUp(size, PAGE_SIZE) / PAGE_SIZE))
  }

  /** Number of bytes a choice provides. */
  function Provides(c: Choice): nat {
    match c
    case Cache(order) => MIN_SIZE * Pow2(order)
    case Pages(order) => PAGE_SIZE * Pow2(order)
  }

  /** Small requests get the smallest cache that fits, and `assert(order <= 7)` holds. */
  lemma CacheChoice(size: nat, order: nat)
    requires size <= KMEM_CACHE_MAX_SIZE
    ensures var c := KmallocChoice(size);
      && c.Cache? && c.order <= KMEM_CACHE_MAX_ORDER && size <= Provides(c)
      && (size <= MIN_SIZE * Pow2(order) ==> c.order <= order)
  {
    Powers();
    var n := RoundUp(size, MIN_SIZE) / MIN_SIZE;
    assert 8 * n == RoundUp(size, MIN_SIZE) && size <= 8 * n < size + 8;
    RoundupSmallest(n, KMEM_CACHE_MAX_ORDER);
    RoundupSmallest(n, order);
  }

  /** Larger requests get the smallest run of pages that fits exactly when rounding the size
      up to a page does not wrap. */
  lemma PagesChoice(size: nat, order: nat)
    requires KMEM_CACHE_MAX_SIZE < size < WORD
    ensures var c := KmallocChoice(size);
      && c.Pages? && (size <= Provides(c) <==> size <= WORD - PAGE_SIZE)
      && (size <= WORD - PAGE_SIZE && size <= PAGE_SIZE * Pow2(order) ==> c.order <= order)
  {
    Powers();
    var n := RoundUp(size, PAGE_SIZE) / PAGE_SIZE;
    if size <= WORD - PAGE_SIZE {
      assert 0x1000 * n == RoundUp(size, PAGE_SIZE) && size <= 0x1000 * n < size + 0x1000;
      RoundupSmallest(n, order);
    } else {
      assert n == 0;
    }
  }

  // ---------------------------------------------------------------- kmalloc_early

  /** The order `kmalloc_early` asks for.  The size is divided without rounding up. */
  function EarlyOrder(size: nat): nat { Ilog2Roundup(size / MIN_SIZE) }

  ghost predicate IsPower(n: nat) { exists k :: n == Pow2(k) }

  /** The block fits exactly when nothing is lost in the division, or the power of two above the
      quotient is larger than the quotient. */
  lemma EarlyFits(size: nat)
    ensures size <= MIN_SIZE * Pow2(EarlyOrder(size)) <==> size % MIN_SIZE == 0 || !IsPower(size / MIN_SIZE)
  {
    var n, order := size / MIN_SIZE, EarlyOrder(size);
    RoundupSmallest(n, 0);
    if IsPower(n) {
      var k :| n == Pow2(k);
      RoundupSmallest(n, k);
      Pow2Monotone(order, k);
    }
  }

  /** No order below it fits, and where it does not fit itself the next one does. */
  lemma EarlyLeast(size: nat, order: nat)
    ensures size <= MIN_SIZE * Pow2(order) ==> EarlyOrder(size) <= order
    ensures size <= MIN_SIZE * Pow2(EarlyOrder(size) + 1)
  {
    var n := size / MIN_SIZE;
    RoundupSmallest(n, order);
    assert size <= MIN_SIZE * Pow2(order) ==> n <= Pow2(order);
    assert size < MIN_SIZE * (n + 1);
  }

  /** Nine bytes get a block of eight. */
  lemma EarlyShort()
    ensures MIN_SIZE * Pow2(EarlyOrder(9)) == 8
  {
    assert 9 / MIN_SIZE == 1 && Fls(0) == 0;
  }
}

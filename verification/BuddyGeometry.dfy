/** Aligned power-of-two blocks of an index space, and their XOR buddies. */
module BuddyGeometry {
  import opened Bits

  /** `x` lies in the same block of `2^k` indices as `i`. */
  predicate In(x: nat, i: nat, k: nat) { Shr(x, k) == Shr(i, k) }

  predicate Aligned(i: nat, k: nat) { Low(i, k) == 0 }

  /** `page_buddy`, `block_buddy`. */
  function BuddyOf(i: nat, k: nat): nat { Xor(i, Pow2(k)) }

  function Min(a: nat, b: nat): nat { if a < b then a else b }

  /** An aligned block is the interval that starts at its head. */
  lemma {:induction false} InInterval(x: nat, i: nat, k: nat)
    requires Aligned(i, k)
    ensures In(x, i, k) <==> i <= x < i + Pow2(k)
    decreases k
  {
    if k > 0 {
      InInterval(x / 2, i / 2, k - 1);
    }
  }

  /** Blocks nest: of two blocks with a common index the smaller lies in the larger. */
  lemma Nest(x: nat, y: nat, k: nat, l: nat)
    requires k <= l && In(x, y, k)
    ensures In(x, y, l)
  {
    ShrShr(x, k, l - k);
    ShrShr(y, k, l - k);
  }

  lemma {:induction false} AlignedDown(i: nat, k: nat, j: nat)
    requires Aligned(i, k) && j <= k
    ensures Aligned(i, j)
    decreases k
  {
    if j > 0 {
      AlignedDown(i / 2, k - 1, j - 1);
    }
  }

  lemma HeadUnique(i: nat, j: nat, k: nat)
    requires Aligned(i, k) && Aligned(j, k) && In(i, j, k)
    ensures i == j
  {
    SplitBits(i, k);
    SplitBits(j, k);
  }

  lemma {:induction false} ShrStep(x: nat, k: nat)
    ensures Shr(x, k + 1) == Shr(x, k) / 2
  {
    if k > 0 {
      ShrStep(x / 2, k - 1);
    }
  }

  lemma {:induction false} LowStep(x: nat, k: nat)
    ensures Low(x, k + 1) == Low(x, k) + (if Shr(x, k) % 2 == 0 then 0 else Pow2(k))
  {
    if k > 0 {
      LowStep(x / 2, k - 1);
    }
  }

  /** A block and its buddy are the two halves of the next larger block, whose head is the
      lower of the two. */
  lemma BuddyHalves(i: nat, k: nat)
    requires Aligned(i, k)
    ensures var b := BuddyOf(i, k);
      && Aligned(b, k) && b != i && BuddyOf(b, k) == i && In(b, i, k + 1) && !In(b, i, k)
      && Aligned(Min(i, b), k + 1)
      && (b < i <==> !Aligned(i, k + 1)) && (i < b ==> b == i + Pow2(k)) && (b < i ==> i == b + Pow2(k))
  {
    var b := BuddyOf(i, k);
    XorPow2(i, k);
    XorPow2(b, k);
    ShrStep(i, k);
    ShrStep(b, k);
    LowStep(i, k);
    LowStep(b, k);
  }

  lemma HalvesCover(x: nat, i: nat, k: nat)
    requires Aligned(i, k)
    ensures In(x, i, k + 1) <==> In(x, i, k) || In(x, BuddyOf(i, k), k)
    ensures !(In(x, i, k) && In(x, BuddyOf(i, k), k))
  {
    XorPow2(i, k);
    ShrStep(i, k);
    ShrStep(x, k);
  }

  /** Indices below an aligned bound stay below it throughout their block. */
  lemma {:induction false} InBounds(x: nat, i: nat, k: nat, n: nat)
    requires In(x, i, k) && i < n && Aligned(n, k)
    ensures x < n
    decreases k
  {
    if k > 0 {
      InBounds(x / 2, i / 2, k - 1, n / 2);
    }
  }
}

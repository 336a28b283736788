/** Exact tilings of a set of indices by aligned power-of-two blocks, split and merged by buddies. */
module BuddyTiling {
  import opened BuddyGeometry

  /** Blocks by the index of their head: the order of each. */
  type Heads = map<nat, nat>

  /** The block headed by `i` holds `x`. */
  predicate Holds(h: Heads, i: nat, x: nat) { i in h && In(x, i, h[i]) }

  ghost predicate Covers(h: Heads, x: nat) {
    exists i :: Holds(h, i, x)
  }

  predicate BlockOk(h: Heads, i: nat, max: nat) { i in h ==> h[i] <= max && Aligned(i, h[i]) }

  /** The blocks of `h` are aligned, do not overlap, and cover exactly `valid`. */
  ghost predicate Tiling(h: Heads, valid: set<nat>, max: nat) {
    && (forall i :: BlockOk(h, i, max))
    && (forall x, i, j :: Holds(h, i, x) && Holds(h, j, x) ==> i == j)
    && (forall x :: Covers(h, x) <==> x in valid)
  }

  /** The two halves of a block. */
  function Split(h: Heads, i: nat): Heads
    requires i in h && h[i] > 0
  {
    h[i := h[i] - 1][BuddyOf(i, h[i] - 1) := h[i] - 1]
  }

  /** Which block of `h` an index of `Split(h, i)` comes from. */
  lemma SplitHolds(h: Heads, i: nat, x: nat, p: nat)
    requires i in h && h[i] > 0 && Aligned(i, h[i]) && BuddyOf(i, h[i] - 1) !in h
    ensures var b := BuddyOf(i, h[i] - 1);
      && (Holds(Split(h, i), p, x) ==> Holds(h, if p == b then i else p, x))
      && (Holds(h, p, x) ==> Holds(Split(h, i), p, x) || (p == i && Holds(Split(h, i), b, x)))
      && !(Holds(Split(h, i), i, x) && Holds(Split(h, i), b, x))
  {
    AlignedDown(i, h[i], h[i] - 1);
    HalvesCover(x, i, h[i] - 1);
    BuddyHalves(i, h[i] - 1);
  }

  lemma SplitFresh(h: Heads, i: nat, valid: set<nat>, max: nat)
    requires Tiling(h, valid, max) && i in h && h[i] > 0
    ensures var b := BuddyOf(i, h[i] - 1); b !in h && i < b && b in valid && Holds(h, i, b)
  {
    var k := h[i] - 1;
    var b := BuddyOf(i, k);
    assert BlockOk(h, i, max);
    AlignedDown(i, k + 1, k);
    BuddyHalves(i, k);
    assert Holds(h, i, b) && (b in h ==> Holds(h, b, b));
    assert Covers(h, b);
  }

  lemma SplitTiling(h: Heads, i: nat, valid: set<nat>, max: nat)
    requires Tiling(h, valid, max) && i in h && h[i] > 0
    ensures Tiling(Split(h, i), valid, max)
  {
    var k, h' := h[i] - 1, Split(h, i);
    var b := BuddyOf(i, k);
    assert BlockOk(h, i, max);
    SplitFresh(h, i, valid, max);
    AlignedDown(i, k + 1, k);
    BuddyHalves(i, k);
    forall p ensures BlockOk(h', p, max) {
      assert BlockOk(h, p, max);
    }
    forall x, p, q | Holds(h', p, x) && Holds(h', q, x) ensures p == q {
      SplitHolds(h, i, x, p);
      SplitHolds(h, i, x, q);
    }
    forall x ensures Covers(h', x) <==> x in valid {
      SplitCovers(h, i, x);
      assert Covers(h, x) <==> x in valid;
    }
  }

  lemma SplitCovers(h: Heads, i: nat, x: nat)
    requires i in h && h[i] > 0 && Aligned(i, h[i]) && BuddyOf(i, h[i] - 1) !in h
    ensures Covers(Split(h, i), x) <==> Covers(h, x)
  {
    if Covers(h, x) {
      var p :| Holds(h, p, x);
      SplitHolds(h, i, x, p);
    }
    if Covers(Split(h, i), x) {
      var p :| Holds(Split(h, i), p, x);
      SplitHolds(h, i, x, p);
    }
  }

  /** A block and its buddy, joined. */
  function Merged(h: Heads, i: nat): Heads
    requires i in h
  {
    var b := BuddyOf(i, h[i]);
    (h - {i, b})[Min(i, b) := h[i] + 1]
  }

  /** Merging undoes splitting. */
  lemma MergedSplit(h: Heads, i: nat)
    requires i in h
    requires var b := BuddyOf(i, h[i]); b in h && h[b] == h[i] && Aligned(i, h[i])
    ensures Split(Merged(h, i), Min(i, BuddyOf(i, h[i]))) == h
  {
    BuddyHalves(i, h[i]);
  }

  lemma MergeTiling(h: Heads, i: nat, valid: set<nat>, max: nat)
    requires Tiling(h, valid, max) && i in h && h[i] < max
    requires var b := BuddyOf(i, h[i]); b in h && h[b] == h[i]
    ensures Tiling(Merged(h, i), valid, max)
  {
    var k := h[i];
    var b, h' := BuddyOf(i, k), Merged(h, i);
    var lo, hi := Min(i, b), if i < b then b else i;
    assert BlockOk(h, i, max);
    BuddyHalves(i, k);
    MergedSplit(h, i);
    assert BuddyOf(lo, k) == hi && hi !in h';
    forall p ensures BlockOk(h', p, max) {
      assert BlockOk(h, p, max);
    }
    forall x, p, q | Holds(h', p, x) && Holds(h', q, x) ensures p == q {
      SplitHolds(h', lo, x, p);
      SplitHolds(h', lo, x, q);
    }
    forall x ensures Covers(h', x) <==> x in valid {
      SplitCovers(h', lo, x);
      assert Covers(h, x) <==> x in valid;
    }
  }

  /** In a tiling, a valid buddy is the head of a block that is no larger. */
  lemma BuddyIsHead(h: Heads, i: nat, valid: set<nat>, max: nat)
    requires Tiling(h, valid, max) && i in h && BuddyOf(i, h[i]) in valid
    ensures var b := BuddyOf(i, h[i]); b in h && h[b] <= h[i]
  {
    var k := h[i];
    var b := BuddyOf(i, k);
    assert BlockOk(h, i, max);
    BuddyHalves(i, k);
    assert Covers(h, b);
    var g :| Holds(h, g, b);
    assert BlockOk(h, g, max) && Holds(h, i, i);
    if h[g] > k {
      Nest(b, i, k + 1, h[g]);
      assert Holds(h, g, i);
    }
    Nest(b, g, h[g], k);
    AlignedDown(b, k, h[g]);
    HeadUnique(b, g, h[g]);
  }
}

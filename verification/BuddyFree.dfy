/** `free_pages` and `free_blocks`: the coalescing loop.  It tests that a buddy is free but not
    that it has the same order, and so keeps the tiling exactly when the orders happen to agree. */
module BuddyFree {
  import opened Bits
  import opened BuddyGeometry
  import opened BuddyTiling
  import opened BuddyState
  import opened BuddyAlloc

  /** The test the loop makes. */
  predicate Joins(frames: seq<Frame>, b: nat) {
    b < |frames| && frames[b].valid && frames[b].free
  }

  /** Every buddy that the loop will join to a block of order `o` at `c` has the order the block
      has by then.  This can be read off the frames before the call. */
  predicate Uniform(frames: seq<Frame>, c: nat, o: nat, max: nat)
    decreases max - o
  {
    o >= max || !Joins(frames, BuddyOf(c, o)) ||
    (frames[BuddyOf(c, o)].order == o && Uniform(frames, Min(c, BuddyOf(c, o)), o + 1, max))
  }

  /** The free blocks after a block of order `o` at `c` has been given back. */
  function Coalesce(frames: seq<Frame>, fr: Heads, c: nat, o: nat, max: nat): Heads
    decreases max - o
  {
    var b := BuddyOf(c, o);
    if o >= max || !Joins(frames, b) then fr[c := o]
    else Coalesce(frames, fr - {b}, Min(c, b), o + 1, max)
  }

  lemma BuddyInBounds(c: nat, o: nat, max: nat, n: nat)
    requires c < n && Aligned(n, max) && o < max
    ensures BuddyOf(c, o) < n
  {
    XorPow2(c, o);
    ShrStep(c, o);
    ShrStep(BuddyOf(c, o), o);
    AlignedDown(n, max, o + 1);
    InBounds(BuddyOf(c, o), c, o + 1, n);
  }

  // ---------------------------------------------------------------- while the orders agree

  lemma MergeMaps(fr: Heads, lv: Heads, c: nat, o: nat)
    requires var b := BuddyOf(c, o); c !in fr && c !in lv && b in fr && b !in lv && fr[b] == o && b != c
    ensures var b := BuddyOf(c, o);
      Merged((fr + lv)[c := o], c) == (fr - {b} + lv)[Min(c, b) := o + 1]
  {}

  lemma MergeStep(st: State, fr: Heads, lv: Heads, c: nat, o: nat, max: nat)
    requires Mid(st, fr, lv, c, o, max) && o < max
    requires var b := BuddyOf(c, o); Joins(st.frames, b) && st.frames[b].order == o
    ensures var b := BuddyOf(c, o);
      var st' := SetOrder(Unlisted(st, b), Min(c, b), o + 1);
      && b in fr && b != c && Mid(st', fr - {b}, lv, Min(c, b), o + 1, max) && SameFrames(st.frames, st'.frames)
  {
    var h, b := (fr + lv)[c := o], BuddyOf(c, o);
    assert BlockOk(h, c, max);
    BuddyHalves(c, o);
    assert b in Valids(st.frames);
    BuddyIsHead(h, c, Valids(st.frames), max);
    assert b in fr && b !in lv;
    MergeTiling(h, c, Valids(st.frames), max);
    MergeMaps(fr, lv, c, o);
    MergeMid(st, fr, lv, Min(c, b), b, o + 1, Merged(h, c), max);
  }

  lemma MergeMid(st: State, fr: Heads, lv: Heads, c: nat, b: nat, k: nat, h: Heads, max: nat)
    requires Aligned(|st.frames|, max) && Repr(st, fr, lv) && c < |st.frames| && c !in lv && (c in fr ==> c == b)
    requires h == (fr - {b} + lv)[c := k] && Tiling(h, Valids(st.frames), max)
    ensures var st' := SetOrder(Unlisted(st, b), c, k);
      Mid(st', fr - {b}, lv, c, k, max) && SameFrames(st.frames, st'.frames)
  {
    MergeRepr(st, fr, lv, c, b, k);
    MidFrom(st, SetOrder(Unlisted(st, b), c, k), fr - {b}, lv, c, k, h, max);
  }

  lemma MergeRepr(st: State, fr: Heads, lv: Heads, c: nat, b: nat, k: nat)
    requires Repr(st, fr, lv) && c < |st.frames| && c !in lv && (c in fr ==> c == b)
    ensures var st' := SetOrder(Unlisted(st, b), c, k);
      Repr(st', fr - {b}, lv) && st'.frames[c].order == k && SameFrames(st.frames, st'.frames)
  {
    UnlistedRepr(st, fr, lv, b);
    SetOrderRepr(Unlisted(st, b), fr - {b}, lv, c, k);
  }
}

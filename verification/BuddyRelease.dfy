/** The coalescing loop as a whole, and the round trip with allocation. */
module BuddyRelease {
  import opened Bits
  import opened BuddyGeometry
  import opened BuddyTiling
  import opened BuddyState
  import opened BuddyAlloc
  import opened BuddyFree
  import opened BuddyClash

  /** Giving up a live block leaves it in nobody's hands. */
  lemma GiveUp(st: State, fr: Heads, lv: Heads, c: nat, max: nat)
    requires BuddyOk(st, fr, lv, max) && c in lv
    ensures Mid(st, fr, lv - {c}, c, lv[c], max)
  {
    assert (fr + (lv - {c}))[c := lv[c]] == fr + lv;
  }

  /** Putting a block in nobody's hands on its list makes it free. */
  lemma PutBack(st: State, fr: Heads, lv: Heads, c: nat, o: nat, max: nat)
    requires Mid(st, fr, lv, c, o, max)
    ensures BuddyOk(FreePage(st, c, o), fr[c := o], lv, max)
  {
    FreePageRepr(st, fr, lv, c, o);
    ValidsSame(st.frames, FreePage(st, c, o).frames);
    assert fr[c := o] + lv == (fr + lv)[c := o];
  }

  /** Nothing outside the block has changed. */
  ghost predicate Outside(frames0: seq<Frame>, frames: seq<Frame>, c: nat, o: nat) {
    |frames| == |frames0| && forall x: nat :: x < |frames| && !In(x, c, o) ==> frames[x] == frames0[x]
  }

  /** The state of the loop while all orders have agreed. */
  ghost predicate GoodInv(st0: State, st: State, c: nat, fr: Heads, lv: Heads, max: nat) {
    && c < |st.frames| && Mid(st, fr, lv, c, st.frames[c].order, max)
    && Outside(st0.frames, st.frames, c, st.frames[c].order)
  }

  lemma BuddyUnchanged(st0: State, st: State, c: nat, fr: Heads, lv: Heads, max: nat)
    requires GoodInv(st0, st, c, fr, lv, max) && st.frames[c].order < max
    ensures var o := st.frames[c].order;
      var b := BuddyOf(c, o);
      b < |st.frames| && st.frames[b] == st0.frames[b] && Aligned(c, o) && !In(b, c, o) && b != c
  {
    var o := st.frames[c].order;
    assert BlockOk((fr + lv)[c := o], c, max);
    BuddyHalves(c, o);
    BuddyInBounds(c, o, max, |st.frames|);
  }

  lemma GoodStep(st0: State, st: State, c: nat, fr: Heads, lv: Heads, max: nat)
    requires GoodInv(st0, st, c, fr, lv, max) && st.frames[c].order < max
    requires var b := BuddyOf(c, st.frames[c].order); Joins(st.frames, b) && st.frames[b].order == st.frames[c].order
    ensures var o := st.frames[c].order;
      var b := BuddyOf(c, o);
      && Joined(st, c, b).frames[Min(c, b)].order == o + 1
      && GoodInv(st0, Joined(st, c, b), Min(c, b), fr - {b}, lv, max)
  {
    var o := st.frames[c].order;
    var b := BuddyOf(c, o);
    BuddyUnchanged(st0, st, c, fr, lv, max);
    MergeStep(st, fr, lv, c, o, max);
    OutsideStep(st0.frames, st.frames, Joined(st, c, b).frames, c, o);
  }

  lemma OutsideStep(frames0: seq<Frame>, frames: seq<Frame>, frames': seq<Frame>, c: nat, o: nat)
    requires Outside(frames0, frames, c, o) && Aligned(c, o) && |frames'| == |frames|
    requires var lo := Min(c, BuddyOf(c, o)); forall x: nat :: x < |frames| && x != lo ==> frames'[x] == frames[x]
    ensures Outside(frames0, frames', Min(c, BuddyOf(c, o)), o + 1)
  {
    var b := BuddyOf(c, o);
    BuddyHalves(c, o);
    forall x: nat | x < |frames'| && !In(x, Min(c, b), o + 1) ensures frames'[x] == frames0[x] {
      HalvesCover(x, c, o);
    }
  }

  /** A free buddy of another order is a clash. */
  lemma ClashFound(st: State, fr: Heads, lv: Heads, c: nat, max: nat) returns (k: Clash)
    requires c < |st.frames| && Mid(st, fr, lv, c, st.frames[c].order, max) && st.frames[c].order < max
    requires var b := BuddyOf(c, st.frames[c].order); Joins(st.frames, b) && st.frames[b].order != st.frames[c].order
    ensures ClashOk(k, max) && k.st == st && k.lv == lv && k.c == c && k.b == BuddyOf(c, st.frames[c].order)
  {
    var o := st.frames[c].order;
    var h, b := (fr + lv)[c := o], BuddyOf(c, o);
    assert BlockOk(h, c, max);
    BuddyHalves(c, o);
    assert b in Valids(st.frames);
    BuddyIsHead(h, c, Valids(st.frames), max);
    k := Clash(st, fr, lv, c, o, b, st.frames[b].order, b + Pow2(st.frames[b].order));
  }

  /** The ghost state of the loop: the free blocks so far, or the first clash and the blocks
      that have left the lists since. */
  datatype Phase = Good(fr: Heads) | Bad(k: Clash, r: set<nat>)

  ghost predicate LoopInv(st0: State, fr0: Heads, page: nat, o0: nat, st: State, c: nat, lv: Heads, max: nat, p: Phase) {
    && c < |st.frames| && |st.frames| == |st0.frames| && Aligned(|st.frames|, max)
    && match p
       case Good(fr) =>
         && GoodInv(st0, st, c, fr, lv, max) && In(page, c, st.frames[c].order)
         && Uniform(st0.frames, page, o0, max) == Uniform(st0.frames, c, st.frames[c].order, max)
         && Coalesce(st0.frames, fr0, page, o0, max) == Coalesce(st0.frames, fr, c, st.frames[c].order, max)
       case Bad(k, r) =>
         ClashOk(k, max) && k.lv == lv && BadInv(st, c, r, k) && !Uniform(st0.frames, page, o0, max)
  }

  lemma GrowsAround(st: State, fr: Heads, lv: Heads, c: nat, max: nat, x: nat)
    requires c < |st.frames| && Mid(st, fr, lv, c, st.frames[c].order, max) && In(x, c, st.frames[c].order)
    ensures var o := st.frames[c].order; In(x, Min(c, BuddyOf(c, o)), o + 1)
  {
    var o := st.frames[c].order;
    assert BlockOk((fr + lv)[c := o], c, max);
    BuddyHalves(c, o);
    HalvesCover(x, c, o);
  }

  /** The block that `page` has come to lie in is the first of its list. */
  ghost predicate AtFront(st: State, fr: Heads, page: nat) {
    forall h :: h in fr && h < |st.frames| && In(page, h, fr[h]) ==> FirstOf(st, st.frames[h].zone, fr[h]) == h
  }

  lemma FrontIs(st: State, fr: Heads, lv: Heads, c: nat, page: nat, max: nat)
    requires c < |st.frames| && BuddyOk(FreePage(st, c, st.frames[c].order), fr, lv, max)
    requires c in fr && fr[c] == st.frames[c].order && In(page, c, fr[c])
    ensures AtFront(FreePage(st, c, st.frames[c].order), fr, page)
  {
    forall h | h in fr && In(page, h, fr[h]) ensures h == c {
      assert Holds(fr + lv, h, page) && Holds(fr + lv, c, page);
    }
  }

  /** One more buddy is joined. */
  lemma Advance(st0: State, fr0: Heads, page: nat, o0: nat, st: State, c: nat, lv: Heads, max: nat, p: Phase)
    returns (p': Phase)
    requires LoopInv(st0, fr0, page, o0, st, c, lv, max, p) && st.frames[c].order < max
    requires Joins(st.frames, BuddyOf(c, st.frames[c].order))
    ensures var b := BuddyOf(c, st.frames[c].order);
      LoopInv(st0, fr0, page, o0, Joined(st, c, b), Min(c, b), lv, max, p')
  {
    var b := BuddyOf(c, st.frames[c].order);
    match p
    case Good(fr) =>
      BuddyUnchanged(st0, st, c, fr, lv, max);
      if st.frames[b].order == st.frames[c].order {
        GoodStep(st0, st, c, fr, lv, max);
        GrowsAround(st, fr, lv, c, max, page);
        p' := Good(fr - {b});
      } else {
        var k := ClashFound(st, fr, lv, c, max);
        BadStart(k, max);
        p' := Bad(k, {b});
      }
    case Bad(k, r) =>
      BadStep(st, c, r, k, max);
      p' := Bad(k, r + {b});
  }

  /** The loop is over: nothing is left to join. */
  lemma Finish(st0: State, fr0: Heads, page: nat, o0: nat, st: State, c: nat, lv: Heads, max: nat, p: Phase)
    requires LoopInv(st0, fr0, page, o0, st, c, lv, max, p)
    requires st.frames[c].order >= max || !Joins(st.frames, BuddyOf(c, st.frames[c].order))
    ensures var st' := FreePage(st, c, st.frames[c].order);
      && (Uniform(st0.frames, page, o0, max) ==>
           BuddyOk(st', Coalesce(st0.frames, fr0, page, o0, max), lv, max) && AtFront(st', Coalesce(st0.frames, fr0, page, o0, max), page))
      && (!Uniform(st0.frames, page, o0, max) ==> forall f :: !BuddyOk(st', f, lv, max))
  {
    match p
    case Good(fr) =>
      if st.frames[c].order < max {
        BuddyUnchanged(st0, st, c, fr, lv, max);
      }
      PutBack(st, fr, lv, c, st.frames[c].order, max);
      FrontIs(st, fr[c := st.frames[c].order], lv, c, page, max);
    case Bad(k, r) =>
      forall f ensures !BuddyOk(FreePage(st, c, st.frames[c].order), f, lv, max) {
        BadEnd(st, c, r, k, f, max);
      }
  }

  /** The assignments of one iteration. */
  method Join(st0: State, c0: nat, buddy: nat) returns (st: State, c: nat)
    requires c0 < |st0.frames| && buddy < |st0.frames|
    ensures st == Joined(st0, c0, buddy) && c == Min(c0, buddy) && SameFrames(st0.frames, st.frames)
    ensures c < c0 || (c == c0 && st.frames[c].order == st0.frames[c].order + 1)
  {
    st, c := Unlisted(st0, buddy), c0;
    if buddy < c {
      c := buddy;
    }
    st := SetOrder(st, c, st.frames[c].order + 1);
  }

  /** `free_pages`, `free_blocks`.  Given a live block of a good state, it ends in a good state
      exactly when every free buddy it joins has the block's order; and then it frees what
      `Coalesce` says, and the block just freed will be the first of its list to be taken. */
  method Release(st0: State, page: nat, max: nat, ghost fr0: Heads, ghost lv0: Heads)
    returns (st: State)
    requires BuddyOk(st0, fr0, lv0, max) && page in lv0
    ensures SameFrames(st0.frames, st.frames)
    ensures Uniform(st0.frames, page, lv0[page], max) ==>
      var fr := Coalesce(st0.frames, fr0, page, lv0[page], max); BuddyOk(st, fr, lv0 - {page}, max) && AtFront(st, fr, page)
    ensures !Uniform(st0.frames, page, lv0[page], max) ==> forall f :: !BuddyOk(st, f, lv0 - {page}, max)
  {
    var c: nat := page;
    ghost var lv, o0 := lv0 - {page}, lv0[page];
    st := st0;
    GiveUp(st, fr0, lv0, c, max);
    ghost var p := Good(fr0);
    while st.frames[c].order < max
      invariant LoopInv(st0, fr0, page, o0, st, c, lv, max, p)
      invariant SameFrames(st0.frames, st.frames)
      decreases c, max - st.frames[c].order
    {
      BuddyInBounds(c, st.frames[c].order, max, |st.frames|);
      var buddy := BuddyOf(c, st.frames[c].order);
      if !st.frames[buddy].valid || !st.frames[buddy].free {
        break;
      }
      p := Advance(st0, fr0, page, o0, st, c, lv, max, p);
      ghost var before := st.frames;
      st, c := Join(st, c, buddy);
      SameFramesStep(st0.frames, before, st.frames);
    }
    Finish(st0, fr0, page, o0, st, c, lv, max, p);
    SameFramesStep(st0.frames, st.frames, FreePage(st, c, st.frames[c].order).frames);
    st := FreePage(st, c, st.frames[c].order);
  }
}

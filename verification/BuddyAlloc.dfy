/** `alloc_pages` and `alloc_blocks`: take the first block of the lowest order that will do, and
    split it down, freeing the upper halves. */
module BuddyAlloc {
  import opened BuddyGeometry
  import opened BuddyTiling
  import opened BuddyState

  datatype Option<+T> = None | Some(value: T)

  /** The free blocks after block `c` of order `o` has been split down to order `want`. */
  function SplitDown(fr: Heads, c: nat, o: nat, want: nat): Heads
    requires want <= o
    decreases o
  {
    if o == want then fr else SplitDown(fr[BuddyOf(c, o - 1) := o - 1], c, o - 1, want)
  }

  lemma ValidsSame(frames: seq<Frame>, frames': seq<Frame>)
    requires |frames| == |frames'| && forall x :: 0 <= x < |frames| ==> frames'[x].valid == frames[x].valid
    ensures Valids(frames') == Valids(frames)
  {}

  /** Only orders and free flags differ. */
  ghost predicate SameFrames(frames: seq<Frame>, frames': seq<Frame>) {
    |frames| == |frames'| && forall x :: 0 <= x < |frames| ==> frames'[x].valid == frames[x].valid && frames'[x].zone == frames[x].zone
  }

  lemma SameFramesStep(f0: seq<Frame>, f1: seq<Frame>, f2: seq<Frame>)
    requires SameFrames(f0, f1) && SameFrames(f1, f2)
    ensures SameFrames(f0, f2)
  {}

  lemma SplitRepr(st: State, fr: Heads, lv: Heads, c: nat, b: nat, k: nat)
    requires Repr(st, fr, lv) && c < |st.frames| && b < |st.frames| && b != c
    requires c !in fr && c !in lv && b !in fr && b !in lv
    ensures var st' := FreePage(SetOrder(st, c, k), b, k);
      Repr(st', fr[b := k], lv) && st'.frames[c].order == k && SameFrames(st.frames, st'.frames)
  {
    SetOrderRepr(st, fr, lv, c, k);
    FreePageRepr(SetOrder(st, c, k), fr, lv, b, k);
  }

  lemma SplitMaps(fr: Heads, lv: Heads, c: nat, o: nat)
    requires o > 0
    requires var b := BuddyOf(c, o - 1); b != c && b !in lv
    ensures Split((fr + lv)[c := o], c) == (fr[BuddyOf(c, o - 1) := o - 1] + lv)[c := o - 1]
  {}

  lemma MidFrom(st: State, st': State, fr: Heads, lv: Heads, c: nat, o: nat, h: Heads, max: nat)
    requires SameFrames(st.frames, st'.frames) && Aligned(|st.frames|, max) && Repr(st', fr, lv)
    requires c < |st.frames| && c !in fr && c !in lv && st'.frames[c].order == o
    requires h == (fr + lv)[c := o] && Tiling(h, Valids(st.frames), max)
    ensures Mid(st', fr, lv, c, o, max)
  {
    ValidsSame(st.frames, st'.frames);
  }

  /** A split, whatever the second half's index `b` is. */
  lemma SplitMid(st: State, fr: Heads, lv: Heads, c: nat, b: nat, k: nat, h: Heads, max: nat)
    requires Aligned(|st.frames|, max) && Repr(st, fr, lv) && c < |st.frames| && b < |st.frames| && b != c
    requires c !in fr && c !in lv && b !in fr && b !in lv
    requires h == (fr[b := k] + lv)[c := k] && Tiling(h, Valids(st.frames), max)
    ensures var st' := FreePage(SetOrder(st, c, k), b, k);
      Mid(st', fr[b := k], lv, c, k, max) && SameFrames(st.frames, st'.frames)
  {
    SplitRepr(st, fr, lv, c, b, k);
    MidFrom(st, FreePage(SetOrder(st, c, k), b, k), fr[b := k], lv, c, k, h, max);
  }

  lemma SplitStep(st: State, fr: Heads, lv: Heads, c: nat, o: nat, max: nat)
    requires Mid(st, fr, lv, c, o, max) && o > 0
    ensures var b := BuddyOf(c, o - 1);
      && b < |st.frames| && st.frames[b].valid && b != c
      && Mid(FreePage(SetOrder(st, c, o - 1), b, o - 1), fr[b := o - 1], lv, c, o - 1, max)
      && SameFrames(st.frames, FreePage(SetOrder(st, c, o - 1), b, o - 1).frames)
  {
    var h, b := (fr + lv)[c := o], BuddyOf(c, o - 1);
    SplitFresh(h, c, Valids(st.frames), max);
    SplitTiling(h, c, Valids(st.frames), max);
    SplitMaps(fr, lv, c, o);
    SplitMid(st, fr, lv, c, b, o - 1, Split(h, c), max);
  }

  /** The splitting loop. */
  method SplitLoop(st0: State, page: nat, order: nat, ghost fr0: Heads, ghost lv: Heads, ghost o0: nat, ghost max: nat)
    returns (st: State, ghost fr: Heads)
    requires Mid(st0, fr0, lv, page, o0, max) && order <= o0
    ensures Mid(st, fr, lv, page, order, max) && fr == SplitDown(fr0, page, o0, order)
    ensures SameFrames(st0.frames, st.frames)
  {
    st, fr := st0, fr0;
    while st.frames[page].order > order
      invariant SameFrames(st0.frames, st.frames) && page < |st.frames|
      invariant order <= st.frames[page].order <= o0
      invariant Mid(st, fr, lv, page, st.frames[page].order, max)
      invariant SplitDown(fr, page, st.frames[page].order, order) == SplitDown(fr0, page, o0, order)
      decreases st.frames[page].order
    {
      SplitStep(st, fr, lv, page, st.frames[page].order, max);
      st := SetOrder(st, page, st.frames[page].order - 1);
      var buddy := BuddyOf(page, st.frames[page].order);
      assert st.frames[buddy].valid;
      fr := fr[buddy := st.frames[page].order];
      st := FreePage(st, buddy, st.frames[page].order);
    }
  }

  /** The free block `h` would do. */
  predicate Suits(st: State, fr: Heads, h: nat, z: nat, order: nat) {
    h in fr && h < |st.frames| && st.frames[h].zone == z && order <= fr[h]
  }

  lemma EmptyList(st: State, fr: Heads, z: nat, order: nat, i: nat)
    requires ListOk(st, fr, z, i) && ListAt(st, z, i) == []
    requires forall h :: Suits(st, fr, h, z, order) ==> i <= fr[h]
    ensures forall h :: Suits(st, fr, h, z, order) ==> i < fr[h]
  {
    forall h | Suits(st, fr, h, z, order) ensures i < fr[h] {
      assert !Belongs(st.frames, fr, h, z, i);
    }
  }

  /** The block at the head of a list. */
  function FirstOf(st: State, z: nat, k: nat): nat { if ListAt(st, z, k) == [] then |st.frames| else ListAt(st, z, k)[0] }

  /** `alloc_pages` past its check of the order, and `alloc_blocks`: an answer exactly when some
      block of the zone is large enough; the block is aligned, of the order asked for, and was
      not live, and is the first of the first list that will do; everything else still tiles the
      valid frames. */
  method Allocate(st0: State, z: nat, order: nat, max: nat, ghost fr0: Heads, ghost lv0: Heads)
    returns (r: Option<nat>, st: State, ghost fr: Heads, ghost lv: Heads)
    requires BuddyOk(st0, fr0, lv0, max)
    ensures r.Some? <==> exists h :: Suits(st0, fr0, h, z, order) && fr0[h] <= max
    ensures r.None? ==> st == st0 && fr == fr0 && lv == lv0
    ensures BuddyOk(st, fr, lv, max) && SameFrames(st0.frames, st.frames)
    ensures r.Some? ==>
      && Aligned(r.value, order) && r.value !in lv0 && lv == lv0[r.value := order] && r.value < |st.frames| && st.frames[r.value].zone == z
      && r.value in fr0 && order <= fr0[r.value] <= max
      && fr == SplitDown(fr0 - {r.value}, r.value, fr0[r.value], order)
      && (forall h :: Suits(st0, fr0, h, z, order) ==> fr0[r.value] <= fr0[h])
      && r.value == FirstOf(st0, z, fr0[r.value])
  {
    st, fr, lv := st0, fr0, lv0;
    var i := order;
    while i <= max
      invariant order <= i && forall h :: Suits(st0, fr0, h, z, order) ==> i <= fr0[h]
      decreases max + 1 - i
    {
      assert ListOk(st0, fr0, z, i);
      if ListAt(st, z, i) != [] {
        var page := ListAt(st, z, i)[0];
        assert page in ListAt(st, z, i);
        assert Belongs(st.frames, fr, page, z, i);
        TakeOut(st, fr, lv, page, max);
        st, fr := Unlisted(st, page), fr - {page};
        assert i == st.frames[page].order;
        st, fr := SplitLoop(st, page, order, fr, lv, i, max);
        ClearFree(st, fr, lv, page, order, max);
        assert BlockOk((fr + lv)[page := order], page, max);
        st := st.(frames := st.frames[page := st.frames[page].(free := false)]);
        lv := lv[page := order];
        r := Some(page);
        return;
      }
      EmptyList(st0, fr0, z, order, i);
      i := i + 1;
    }
    r := None;
  }

  /** Taking a free block off its list leaves it in nobody's hands. */
  lemma TakeOut(st: State, fr: Heads, lv: Heads, c: nat, max: nat)
    requires BuddyOk(st, fr, lv, max) && c in fr
    ensures Mid(Unlisted(st, c), fr - {c}, lv, c, fr[c], max)
  {
    UnlistedRepr(st, fr, lv, c);
    assert (fr - {c} + lv)[c := fr[c]] == fr + lv;
  }

  /** Clearing the flag makes the block live. */
  lemma ClearFree(st: State, fr: Heads, lv: Heads, c: nat, o: nat, max: nat)
    requires Mid(st, fr, lv, c, o, max)
    ensures var st' := st.(frames := st.frames[c := st.frames[c].(free := false)]);
      BuddyOk(st', fr, lv[c := o], max) && Valids(st'.frames) == Valids(st.frames)
  {
    var st' := st.(frames := st.frames[c := st.frames[c].(free := false)]);
    forall z: nat, k: nat ensures ListOk(st', fr, z, k) {
      assert ListOk(st, fr, z, k);
      forall h ensures Belongs(st'.frames, fr, h, z, k) <==> Belongs(st.frames, fr, h, z, k) {}
    }
    ValidsSame(st.frames, st'.frames);
    assert fr + lv[c := o] == (fr + lv)[c := o];
  }
}

/** The page allocator on memory that has just been added: single frames and blocks of the largest
    order, nothing in between. */
module BuddyFresh {
  import opened BuddyGeometry
  import opened BuddyTiling
  import opened BuddyState
  import opened BuddyAlloc
  import opened BuddyFree
  import opened BuddyCycle
  import opened BuddyInit
  import opened BuddyPages

  ghost predicate Fresh(fr: Heads, max: nat) { forall h :: h in fr ==> fr[h] == 0 || fr[h] == max }

  /** `add_free_pages` makes no other blocks. */
  lemma CutFresh(a: nat, b: nat)
    ensures Fresh(CutAtBoundary(a, b), MAX_ORDER)
  {}

  /** The block that a frame and its buddy would make together has a buddy of its own, which is
      free exactly when its flag says so. */
  lemma PairBuddy(st: State, fr: Heads, lv: Heads, c: nat, max: nat)
    requires BuddyOk(st, fr, lv, max) && max > 1 && c in lv && lv[c] == 0
    requires var b := BuddyOf(c, 0); b in fr && fr[b] == 0
    ensures var d := BuddyOf(Min(c, BuddyOf(c, 0)), 1); Joins(st.frames, d) <==> d in fr
  {
    var h, b, valid := fr + lv, BuddyOf(c, 0), Valids(st.frames);
    var m := Min(c, b);
    var d := BuddyOf(m, 1);
    assert BlockOk(h, c, max);
    BuddyHalves(c, 0);
    MergeTiling(h, c, valid, max);
    var h1 := Merged(h, c);
    assert BlockOk(h1, m, max) && m in h1 && h1[m] == 1;
    BuddyHalves(m, 1);
    if Joins(st.frames, d) {
      assert d in valid;
      BuddyIsHead(h1, m, valid, max);
      assert d in h;
      HeadValid(st, fr, lv, d, max);
    }
    if d in fr {
      HeadValid(st, fr, lv, d, max);
    }
  }

  /** Giving back a single frame keeps the allocator sound if and only if its buddy is not free,
      or the buddy of the pair they make is not. */
  lemma FrameBack(st: State, fr: Heads, lv: Heads, c: nat, max: nat)
    requires BuddyOk(st, fr, lv, max) && max > 1 && Fresh(fr, max) && c in lv && lv[c] == 0
    ensures var b := BuddyOf(c, 0);
      Uniform(st.frames, c, lv[c], max) <==> b !in fr || BuddyOf(Min(c, b), 1) !in fr
  {
    var b := BuddyOf(c, 0);
    if Joins(st.frames, b) {
      assert b in Valids(st.frames);
      BuddyIsHead(fr + lv, c, Valids(st.frames), max);
      HeadValid(st, fr, lv, b, max);
      PairBuddy(st, fr, lv, c, max);
    } else if b in fr {
      HeadValid(st, fr, lv, b, max);
    }
  }

  /** The first allocation from memory just added, given back: sound if and only if the block it
      was cut from has the largest order, or its buddy is not free, or the pair's buddy is not. */
  lemma FreshCycle(st0: State, fr0: Heads, lv0: Heads, st: State, c: nat, want: nat, max: nat)
    requires BuddyOk(st0, fr0, lv0, max) && max > 1 && Fresh(fr0, max) && c in fr0 && want <= fr0[c]
    requires BuddyOk(st, SplitDown(fr0 - {c}, c, fr0[c], want), lv0[c := want], max)
    ensures Uniform(st.frames, c, want, max) <==>
      fr0[c] == max || BuddyOf(c, 0) !in fr0 || BuddyOf(Min(c, BuddyOf(c, 0)), 1) !in fr0
  {
    assert BlockOk(fr0 + lv0, c, max);
    if fr0[c] == max {
      forall k: nat | want <= k < max ensures CutOff(st.frames, fr0 - {c}, c, k) {
        Halved(st0, fr0, lv0, st, c, want, max, k);
      }
      Regrown(st.frames, fr0 - {c}, c, max, want, max);
    } else {
      FrameBack(st, fr0 - {c}, lv0[c := 0], c, max);
      BuddyHalves(c, 0);
      BuddyHalves(Min(c, BuddyOf(c, 0)), 1);
    }
  }

  /** The same as a run of the page allocator, on any range: a block of any order taken from it, if
      there is one, and given back. */
  method AddTakeGive(start: nat, end: nat, highmem: bool, order: nat) returns (page: Option<nat>, st: State)
    requires start <= end <= TOTAL_PAGES
    ensures Valids(st.frames) == Range(start, end)
    ensures var fr := CutAtBoundary(start, end);
      match page
      case None => BuddyOk(st, fr, map[], MAX_ORDER)
      case Some(c) =>
        && c in fr
        && if fr[c] == MAX_ORDER || BuddyOf(c, 0) !in fr || BuddyOf(Min(c, BuddyOf(c, 0)), 1) !in fr
           then exists f :: BuddyOk(st, f, map[], MAX_ORDER)
           else forall f :: !BuddyOk(st, f, map[], MAX_ORDER)
  {
    var a := new PageAllocator();
    a.AddFreePages(start, end);
    CutFresh(start, end);
    ghost var st0, fr0 := a.st, a.free;
    assert fr0 == CutAtBoundary(start, end);
    page := a.AllocPages(highmem, order);
    if page.Some? {
      FreshCycle(st0, fr0, map[], a.st, page.value, order, MAX_ORDER);
      a.FreePages(page.value);
      assert a.live == map[];
    }
    st := a.st;
    assert a.Valid() ==> BuddyOk(st, a.free, a.live, MAX_ORDER);
  }

  // ---------------------------------------------------------------- what can be had at first

  /** Some whole group of the range lies in the zone. */
  ghost predicate HoldsGroup(a: nat, b: nat, highmem: bool) {
    exists h: nat :: GroupAt(a, b, highmem, h)
  }

  predicate GroupAt(a: nat, b: nat, highmem: bool, h: nat) {
    h % GROUP == 0 && a <= h && h + GROUP <= b && (h >= HIGHMEM <==> highmem)
  }

  /** Which free blocks of memory just added suit a request for more than a frame. */
  lemma FirstSuits(st: State, fr: Heads, a: nat, b: nat, highmem: bool, order: nat, h: nat)
    requires BuddyOk(st, fr, map[], MAX_ORDER) && ZonesOk(st.frames) && |st.frames| == TOTAL_PAGES
    requires Valids(st.frames) == Range(a, b) && RangeAdded(map[], fr, a, b) && 0 < order <= MAX_ORDER
    ensures Suits(st, fr, h, if highmem then 1 else 0, order) <==> GroupAt(a, b, highmem, h)
    ensures h in fr ==> fr[h] <= MAX_ORDER
  {
    assert h in Valids(st.frames) <==> a <= h < b;
    assert if a <= h < b then RightHead(fr, a, b, h) else h !in fr;
  }

  /** The first request to a fresh allocator: a block of two frames or more is to be had if and only
      if the range added holds a whole group of 1024 frames in the zone asked for. */
  method FirstLarge(start: nat, end: nat, highmem: bool, order: nat) returns (page: Option<nat>)
    requires start <= end <= TOTAL_PAGES && 0 < order <= MAX_ORDER
    ensures page.Some? <==> HoldsGroup(start, end, highmem)
    ensures page.Some? ==> GroupAt(start, end, highmem, page.value)
  {
    var a := new PageAllocator();
    a.AddFreePages(start, end);
    ghost var st0, fr0, z := a.st, a.free, if highmem then 1 else 0;
    forall h: nat ensures (Suits(st0, fr0, h, z, order) <==> GroupAt(start, end, highmem, h)) && (h in fr0 ==> fr0[h] <= MAX_ORDER) {
      FirstSuits(st0, fr0, start, end, highmem, order, h);
    }
    page := a.AllocPages(highmem, order);
  }

  // ---------------------------------------------------------------- two short runs

  function Singles(n: nat): Heads { map h | h in Range(0, n) :: 0 }

  /** The lowest frames are cut into single ones. */
  lemma LowFrames(n: nat)
    requires n < GROUP
    ensures CutAtBoundary(0, n) == Singles(n)
  {
    assert RoundDown(n, GROUP) == 0;
  }

  lemma FourBuddies()
    ensures BuddyOf(0, 0) == 1 && BuddyOf(1, 0) == 0 && BuddyOf(2, 0) == 3 && BuddyOf(3, 0) == 2
    ensures BuddyOf(0, 1) == 2 && BuddyOf(2, 1) == 0
  {}

  /** Among four frames of which one is taken, the pair's buddy is free. */
  lemma FourFault(st: State, fr: Heads, lv: Heads, p: nat, max: nat)
    requires BuddyOk(st, fr, lv, max) && max > 1 && p < 4 && fr == Singles(4) - {p} && lv == map[p := 0]
    ensures !Uniform(st.frames, p, lv[p], max)
  {
    FourBuddies();
    FrameBack(st, fr, lv, p, max);
  }

  /** Among two, the buddy is joined and the loop stops. */
  lemma TwoMerge(frames: seq<Frame>, fr: Heads, p: nat, b: nat, o: nat, max: nat)
    requires max > 1 && o == 0 && p < 2 && b == 1 - p && fr == map[b := 0] && Joins(frames, b) && !Joins(frames, 2)
    ensures Coalesce(frames, fr, p, o, max) == map[0 := 1]
  {
    FourBuddies();
    assert BuddyOf(p, o) == b && Min(p, b) == 0 && fr - {b} == map[];
    assert Coalesce(frames, map[], 0, o + 1, max) == map[0 := 1];
  }

  lemma TwoUniform(st: State, fr: Heads, lv: Heads, p: nat, max: nat)
    requires BuddyOk(st, fr, lv, max) && max > 1 && p < 2 && fr == map[1 - p := 0] && lv == map[p := 0]
    ensures Uniform(st.frames, p, lv[p], max)
  {
    FourBuddies();
    FrameBack(st, fr, lv, p, max);
    assert BuddyOf(p, 0) == 1 - p && Min(p, 1 - p) == 0;
  }

  lemma TwoLess(p: nat)
    requires p < 2
    ensures Singles(2) - {p} == map[1 - p := 0] && 2 !in Range(0, 2)
  {}

  lemma TwoJoin(st: State, fr: Heads, lv: Heads, p: nat, max: nat)
    requires BuddyOk(st, fr, lv, max) && max > 1 && p < 2 && fr == Singles(2) - {p} && lv == map[p := 0]
    requires Valids(st.frames) == Range(0, 2)
    ensures Uniform(st.frames, p, lv[p], max) && Coalesce(st.frames, fr, p, lv[p], max) == map[0 := 1]
  {
    TwoLess(p);
    HeadValid(st, fr, lv, 1 - p, max);
    TwoUniform(st, fr, lv, p, max);
    TwoMerge(st.frames, fr, p, 1 - p, lv[p], max);
  }

  method AddLow(n: nat) returns (a: PageAllocator)
    requires 0 < n < GROUP
    ensures fresh(a) && a.Valid() && a.live == map[] && a.free == Singles(n) && Valids(a.st.frames) == Range(0, n)
  {
    a := new PageAllocator();
    a.AddFreePages(0, n);
    LowFrames(n);
  }

  /** Add `n` low frames and take one. */
  method TakeOne(n: nat) returns (a: PageAllocator, p: nat)
    requires 0 < n < GROUP
    ensures fresh(a) && a.Valid() && p < n && a.live == map[p := 0] && a.free == Singles(n) - {p}
    ensures Valids(a.st.frames) == Range(0, n)
  {
    a := AddLow(n);
    assert 0 in Valids(a.st.frames);
    assert Suits(a.st, a.free, 0, 0, 0);
    var r := a.AllocPages(false, 0);
    p := r.value;
  }

  /** Four frames, one of them taken and given back: no reading of the free lists tiles the four
      frames any more. */
  method FourFrames() returns (st: State)
    ensures Valids(st.frames) == Range(0, 4) && forall f :: !BuddyOk(st, f, map[], MAX_ORDER)
  {
    var a, p := TakeOne(4);
    FourFault(a.st, a.free, a.live, p, MAX_ORDER);
    a.FreePages(p);
    assert a.live == map[];
    st := a.st;
  }

  /** Two frames, one of them taken and given back: sound, but the two have become one block. */
  method TwoFrames() returns (st: State)
    ensures Valids(st.frames) == Range(0, 2) && BuddyOk(st, map[0 := 1], map[], MAX_ORDER)
    ensures !BuddyOk(st, CutAtBoundary(0, 2), map[], MAX_ORDER)
  {
    var a, p := TakeOne(2);
    TwoJoin(a.st, a.free, a.live, p, MAX_ORDER);
    a.FreePages(p);
    assert a.live == map[];
    st := a.st;
    LowFrames(2);
    assert 0 in Singles(2);
  }
}

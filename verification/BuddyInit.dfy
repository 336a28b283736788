/** How the allocators come by their frames: `kmalloc_early_init`, and `add_free_pages` with the
    linear and high zones of mm/page.c. */
module BuddyInit {
  import opened Bits
  import opened Log2
  import opened BuddyGeometry
  import opened BuddyTiling
  import opened BuddyState
  import opened BuddyAlloc

  const TOTAL_PAGES: nat := 0x10_0000
  const MAX_ORDER: nat := 10
  /** `1 << MAX_ORDER`. */
  const GROUP: nat := 0x400
  /** `highmem_start_pfn`. */
  const HIGHMEM: nat := 0x38000

  predicate Between(a: nat, x: nat, b: nat) { a <= x < b }

  function Range(a: nat, b: nat): set<nat> { set x | 0 <= x < b && Between(a, x, b) }

  // ---------------------------------------------------------------- alignment and remainders

  /** An aligned block that starts below an aligned bound ends below it. */
  lemma Room(c: nat, o: nat, n: nat)
    requires Aligned(c, o) && Aligned(n, o) && c < n
    ensures c + Pow2(o) <= n
  {
    InInterval(c + Pow2(o) - 1, c, o);
    InBounds(c + Pow2(o) - 1, c, o, n);
  }

  lemma {:induction false} NextAligned(c: nat, o: nat)
    requires Aligned(c, o)
    ensures Aligned(c + Pow2(o), o)
    decreases o
  {
    if o > 0 {
      NextAligned(c / 2, o - 1);
    }
  }

  // ---------------------------------------------------------------- one more free block

  /** A block beside the tiled indices makes a larger tiling. */
  lemma AddBlock(h: Heads, valid: set<nat>, max: nat, c: nat, o: nat)
    requires Tiling(h, valid, max) && Aligned(c, o) && o <= max && Range(c, c + Pow2(o)) !! valid
    ensures c !in h && Tiling(h[c := o], valid + Range(c, c + Pow2(o)), max)
  {
    var h', v' := h[c := o], valid + Range(c, c + Pow2(o));
    if c in h {
      assert Holds(h, c, c);
      assert Covers(h, c);
    }
    forall i ensures BlockOk(h', i, max) {
      assert BlockOk(h, i, max);
    }
    forall x, i | Holds(h', i, x) ensures i == c <==> x in Range(c, c + Pow2(o)) {
      InInterval(x, c, o);
      assert i != c ==> Holds(h, i, x) && Covers(h, x);
    }
    forall x, i, j | Holds(h', i, x) && Holds(h', j, x) ensures i == j {
      assert i != c && j != c ==> Holds(h, i, x) && Holds(h, j, x);
    }
    forall x ensures Covers(h', x) <==> x in v' {
      AddCovers(h, c, o, x);
    }
  }

  lemma AddCovers(h: Heads, c: nat, o: nat, x: nat)
    requires c !in h && Aligned(c, o)
    ensures Covers(h[c := o], x) <==> Covers(h, x) || x in Range(c, c + Pow2(o))
  {
    var h' := h[c := o];
    InInterval(x, c, o);
    if Covers(h, x) {
      var i :| Holds(h, i, x);
      assert Holds(h', i, x);
    }
    if Covers(h', x) {
      var i :| Holds(h', i, x);
      assert i != c ==> Holds(h, i, x);
    }
    if x in Range(c, c + Pow2(o)) {
      assert Holds(h', c, x);
    }
  }

  // ---------------------------------------------------------------- runs of blocks

  /** The blocks of order `o` that fill the indices from `a` to `b`. */
  ghost function Blocks(a: nat, b: nat, o: nat): Heads {
    map h: nat | h in Range(a, b) && Aligned(h, o) :: o
  }

  lemma BlocksStep(a: nat, c: nat, o: nat)
    requires a <= c && Aligned(c, o)
    ensures Blocks(a, c + Pow2(o), o) == Blocks(a, c, o)[c := o]
    ensures Range(a, c + Pow2(o)) == Range(a, c) + Range(c, c + Pow2(o))
  {
    forall h | h in Range(c, c + Pow2(o)) && Aligned(h, o) ensures h == c {
      InInterval(h, c, o);
      HeadUnique(h, c, o);
    }
  }

  /** The lists and flags are right and the blocks tile `valid`, whatever the frames say. */
  ghost predicate Lists(st: State, fr: Heads, lv: Heads, valid: set<nat>, max: nat) {
    Repr(st, fr, lv) && Tiling(fr + lv, valid, max)
  }

  lemma FreeOne(st: State, fr: Heads, lv: Heads, valid: set<nat>, max: nat, c: nat, o: nat, r: set<nat>)
    requires Lists(st, fr, lv, valid, max) && Aligned(c, o) && o <= max && c < |st.frames|
    requires r == Range(c, c + Pow2(o)) && r !! valid
    ensures Lists(FreePage(st, c, o), fr[c := o], lv, valid + r, max)
  {
    AddBlock(fr + lv, valid, max, c, o);
    FreePageRepr(st, fr, lv, c, o);
    assert fr[c := o] + lv == (fr + lv)[c := o];
  }

  /** The free blocks `g` and tiled indices `v` once blocks of order `o` fill `a` up to `c`. */
  ghost predicate Filled(fr: Heads, valid: set<nat>, a: nat, c: nat, o: nat, g: Heads, v: set<nat>) {
    a <= c && Aligned(c, o) && g == fr + Blocks(a, c, o) && v == valid + Range(a, c)
  }

  lemma FilledStart(fr: Heads, valid: set<nat>, a: nat, o: nat)
    requires Aligned(a, o)
    ensures Filled(fr, valid, a, a, o, fr, valid)
  {
    assert fr + Blocks(a, a, o) == fr && valid + Range(a, a) == valid;
  }

  lemma RangeApart(a: nat, c: nat, next: nat, end: nat, valid: set<nat>)
    requires a <= c <= next <= end && Range(a, end) !! valid
    ensures Range(c, next) !! valid + Range(a, c)
  {
    forall x | x in Range(c, next) ensures x !in valid + Range(a, c) {
      assert x in Range(a, end);
    }
  }

  lemma Regroup(fr: Heads, bs: Heads, c: nat, o: nat, valid: set<nat>, r0: set<nat>, r1: set<nat>)
    ensures (fr + bs)[c := o] == fr + bs[c := o] && valid + r0 + r1 == valid + (r0 + r1)
  {}

  lemma FilledStep(fr: Heads, valid: set<nat>, a: nat, c: nat, o: nat, g: Heads, v: set<nat>, end: nat)
    returns (next: nat, r: set<nat>)
    requires Filled(fr, valid, a, c, o, g, v) && c < end && Aligned(end, o) && Range(a, end) !! valid
    ensures next == c + Pow2(o) <= end && r == Range(c, next) && r !! v
    ensures Filled(fr, valid, a, next, o, g[c := o], v + r)
  {
    next := c + Pow2(o);
    r := Range(c, next);
    Room(c, o, end);
    NextAligned(c, o);
    BlocksStep(a, c, o);
    RangeApart(a, c, next, end, valid);
    Regroup(fr, Blocks(a, c, o), c, o, valid, Range(a, c), r);
  }

  /** `init_free_pages`: exactly the blocks that fill the range become free, and its closing
      assertion holds. */
  method InitFreePages(st0: State, start: nat, nr: nat, order: nat,
    ghost end: nat, ghost max: nat, ghost fr: Heads, ghost lv: Heads, ghost valid: set<nat>)
    returns (st: State, ghost g: Heads, ghost v: set<nat>)
    requires Lists(st0, fr, lv, valid, max) && order <= max && end == start + nr <= |st0.frames|
    requires Aligned(start, order) && Aligned(end, order) && Range(start, end) !! valid
    ensures Lists(st, g, lv, v, max) && SameFrames(st0.frames, st.frames)
    ensures g == fr + Blocks(start, end, order) && v == valid + Range(start, end)
  {
    st, g, v := st0, fr, valid;
    var count := 0;
    ghost var c: nat := start;
    FilledStart(fr, valid, start, order);
    while count < nr
      invariant count <= nr && c == start + count && SameFrames(st0.frames, st.frames)
      invariant Filled(fr, valid, start, c, order, g, v) && Lists(st, g, lv, v, max)
    {
      ghost var next: nat, r: set<nat> := FilledStep(fr, valid, start, c, order, g, v, end);
      FreeOne(st, g, lv, v, max, c, order, r);
      SameFramesStep(st0.frames, st.frames, FreePage(st, c, order).frames);
      g, v := g[c := order], v + r;
      st := FreePage(st, start + count, order);
      count, c := count + Pow2(order), next;
    }
    assert count == nr;
  }

  // ---------------------------------------------------------------- zones and valid frames

  /** A frame is in the high zone exactly when it has been added and lies above the boundary. */
  ghost predicate ZonesOk(frames: seq<Frame>) {
    forall x :: 0 <= x < |frames| ==> frames[x].zone == if frames[x].valid && x >= HIGHMEM then 1 else 0
  }

  /** The boundary is a multiple of the largest block, so that no block straddles it. */
  lemma BoundaryApart(frames: seq<Frame>)
    requires ZonesOk(frames)
    ensures ZonesApart(frames, MAX_ORDER)
  {
    GroupAligned(HIGHMEM);
    forall x: nat, y: nat | x in Valids(frames) && y in Valids(frames) && In(x, y, MAX_ORDER)
      ensures frames[x].zone == frames[y].zone
    {
      if x < HIGHMEM {
        InBounds(y, x, MAX_ORDER, HIGHMEM);
      } else if y < HIGHMEM {
        InBounds(x, y, MAX_ORDER, HIGHMEM);
      }
    }
  }

  /** Frames from `a` to `b` have been marked. */
  ghost predicate Marked(f0: seq<Frame>, f: seq<Frame>, a: nat, b: nat) {
    && |f| == |f0|
    && (forall x :: 0 <= x < |f| && !(a <= x < b) ==> f[x] == f0[x])
    && (forall x :: 0 <= x < |f| && a <= x < b ==>
         f[x] == f0[x].(valid := true, zone := if x >= HIGHMEM then 1 else 0))
  }

  /** The first loop of `add_free_pages`. */
  method Mark(f0: seq<Frame>, start: nat, end: nat, highmem: bool) returns (f: seq<Frame>)
    requires start <= end <= |f0| && ZonesOk(f0)
    requires forall x :: start <= x < end ==> !f0[x].valid && (x >= HIGHMEM <==> highmem)
    ensures Marked(f0, f, start, end)
  {
    f := f0;
    var pfn := start;
    while pfn < end
      invariant start <= pfn <= end && Marked(f0, f, start, pfn)
    {
      f := f[pfn := f[pfn].(valid := true)];
      if highmem {
        f := f[pfn := f[pfn].(zone := 1)];
      }
      pfn := pfn + 1;
    }
  }

  lemma MarkedZones(f0: seq<Frame>, f: seq<Frame>, a: nat, b: nat)
    requires Marked(f0, f, a, b) && ZonesOk(f0) && b <= |f0|
    ensures ZonesOk(f) && Valids(f) == Valids(f0) + Range(a, b)
  {}

  /** Marking frames outside all blocks changes no list. */
  lemma MarkedLists(st: State, f: seq<Frame>, fr: Heads, lv: Heads, a: nat, b: nat, max: nat)
    requires BuddyOk(st, fr, lv, max) && Marked(st.frames, f, a, b) && Range(a, b) !! Valids(st.frames)
    ensures Lists(State(f, st.lists), fr, lv, Valids(st.frames), max)
  {
    var st' := State(f, st.lists);
    forall h | h in fr || h in lv ensures h < |f| && f[h] == st.frames[h] {
      assert Holds(fr + lv, h, h);
      assert Covers(fr + lv, h);
    }
    forall z: nat, k: nat ensures ListOk(st', fr, z, k) {
      assert ListOk(st, fr, z, k);
      forall h ensures Belongs(f, fr, h, z, k) <==> Belongs(st.frames, fr, h, z, k) {}
    }
  }

  // ---------------------------------------------------------------- add_free_pages

  function RoundDown(a: nat, n: nat): nat
    requires n > 0
  {
    a - a % n
  }

  /** The blocks that a range on one side of the boundary is cut into: the largest ones where
      they fit, single frames at both ends. */
  ghost function Cut(a: nat, b: nat): Heads {
    var s, e := RoundUp(a, GROUP), RoundDown(b, GROUP);
    if s >= e then Blocks(a, b, 0) else Blocks(a, s, 0) + Blocks(s, e, MAX_ORDER) + Blocks(e, b, 0)
  }

  ghost function CutAtBoundary(a: nat, b: nat): Heads {
    if a < HIGHMEM < b then Cut(a, HIGHMEM) + Cut(HIGHMEM, b) else Cut(a, b)
  }

  lemma GroupAligned(x: nat)
    requires x % GROUP == 0
    ensures Aligned(x, MAX_ORDER)
  {
    Powers();
    LowIsMod(x, MAX_ORDER);
  }

  /** The aligned group of 1024 frames around `x` lies between `a` and `b`. */
  predicate WholeGroup(a: nat, b: nat, x: nat) { a <= x - x % GROUP && x - x % GROUP + GROUP <= b }

  /** Of the blocks `h`, frame `x` heads just what it should in a range from `a` to `b`: the first
      frame of a whole group is a block of the largest order, the others of that group are not
      blocks, and every other frame is a block by itself. */
  predicate RightHead(h: Heads, a: nat, b: nat, x: nat) {
    if WholeGroup(a, b, x) then (x in h <==> x % GROUP == 0) && (x in h ==> h[x] == MAX_ORDER) else x in h && h[x] == 0
  }

  lemma GroupHead(x: nat)
    ensures Aligned(x, MAX_ORDER) <==> x % GROUP == 0
  {
    Powers();
    LowIsMod(x, MAX_ORDER);
  }

  lemma BlocksAt(a: nat, b: nat, o: nat, x: nat)
    ensures x in Blocks(a, b, o) <==> a <= x < b && Aligned(x, o)
    ensures x in Blocks(a, b, o) ==> Blocks(a, b, o)[x] == o
  {
    assert x in Range(a, b) <==> a <= x < b;
  }

  lemma ThreeAt(a: nat, s: nat, e: nat, b: nat, x: nat)
    requires a <= s <= e <= b
    ensures var h := Blocks(a, s, 0) + Blocks(s, e, MAX_ORDER) + Blocks(e, b, 0);
      && (x in h <==> a <= x < b && (s <= x < e ==> x % GROUP == 0))
      && (x in h ==> h[x] == if s <= x < e then MAX_ORDER else 0)
  {
    GroupHead(x);
    BlocksAt(a, s, 0, x);
    BlocksAt(s, e, MAX_ORDER, x);
    BlocksAt(e, b, 0, x);
  }

  /** What a range on one side of the boundary is cut into. */
  lemma CutHeads(a: nat, b: nat, x: nat)
    requires a <= b <= TOTAL_PAGES
    ensures if a <= x < b then RightHead(Cut(a, b), a, b, x) else x !in Cut(a, b)
  {
    SplitPoints(a, b);
    var s, e := RoundUp(a, GROUP), RoundDown(b, GROUP);
    if a <= x < b {
      SplitGroups(a, b, s, e, x);
    }
    if s < e {
      ThreeAt(a, s, e, b, x);
    } else {
      BlocksAt(a, b, 0, x);
    }
  }

  lemma SplitGroups(a: nat, b: nat, s: nat, e: nat, x: nat)
    requires a <= x < b && a <= s < a + GROUP && s % GROUP == 0 && b - GROUP < e <= b && e % GROUP == 0
    ensures WholeGroup(a, b, x) <==> s <= x < e
  {}

  /** The boundary is a multiple of a group, so that it cuts none. */
  lemma BoundaryHeads(a: nat, b: nat, x: nat)
    requires a <= b <= TOTAL_PAGES
    ensures if a <= x < b then RightHead(CutAtBoundary(a, b), a, b, x) else x !in CutAtBoundary(a, b)
  {
    if a < HIGHMEM < b {
      CutHeads(a, HIGHMEM, x);
      CutHeads(HIGHMEM, b, x);
      assert a <= x < HIGHMEM ==> (WholeGroup(a, b, x) <==> WholeGroup(a, HIGHMEM, x));
      assert HIGHMEM <= x < b ==> (WholeGroup(a, b, x) <==> WholeGroup(HIGHMEM, b, x));
    } else {
      CutHeads(a, b, x);
    }
  }

  /** The blocks `g` are the blocks `fr` there were and, for the range from `a` to `b`, a block of
      the largest order for each whole group and single frames for the rest. */
  ghost predicate RangeAdded(fr: Heads, g: Heads, a: nat, b: nat) {
    forall x: nat :: if a <= x < b then RightHead(g, a, b, x) else (x in g <==> x in fr) && (x in fr ==> g[x] == fr[x])
  }

  lemma AddedHeads(fr: Heads, a: nat, b: nat)
    requires a <= b <= TOTAL_PAGES && forall x: nat :: a <= x < b ==> x !in fr
    ensures RangeAdded(fr, fr + CutAtBoundary(a, b), a, b)
  {
    forall x: nat ensures var g := fr + CutAtBoundary(a, b);
      if a <= x < b then RightHead(g, a, b, x) else (x in g <==> x in fr) && (x in fr ==> g[x] == fr[x])
    {
      BoundaryHeads(a, b, x);
    }
  }

  /** Frames that are not valid head no block. */
  lemma NoHeads(st: State, fr: Heads, lv: Heads, a: nat, b: nat)
    requires BuddyOk(st, fr, lv, MAX_ORDER) && Range(a, b) !! Valids(st.frames)
    ensures forall x: nat :: a <= x < b ==> x !in fr
  {
    forall x: nat | a <= x < b ensures x !in fr {
      assert x in Range(a, b);
      if x in fr {
        assert Holds(fr + lv, x, x);
        assert Covers(fr + lv, x);
      }
    }
  }

  lemma DownTo(x: nat)
    ensures var r := RoundDown(x, GROUP); x - GROUP < r <= x && r % GROUP == 0
  {}

  lemma UpTo(a: nat)
    requires a <= TOTAL_PAGES
    ensures var r := RoundUp(a, GROUP); a <= r < a + GROUP && r % GROUP == 0
  {
    DownTo(a + GROUP - 1);
    assert RoundUp(a, GROUP) == RoundDown(a + GROUP - 1, GROUP);
  }

  lemma SplitPoints(a: nat, b: nat)
    requires a <= b <= TOTAL_PAGES
    ensures var s, e := RoundUp(a, GROUP), RoundDown(b, GROUP);
      a <= s < a + GROUP && b - GROUP < e <= b && s % GROUP == 0 && e % GROUP == 0
  {
    UpTo(a);
    DownTo(b);
  }

  lemma ThreeRanges(a: nat, s: nat, e: nat, b: nat, valid: set<nat>)
    requires a <= s <= e <= b && Range(a, b) !! valid
    ensures Range(a, s) !! valid && Range(s, e) !! valid + Range(a, s)
    ensures Range(e, b) !! valid + Range(a, s) + Range(s, e)
    ensures valid + Range(a, s) + Range(s, e) + Range(e, b) == valid + Range(a, b)
  {
    assert Range(a, b) == Range(a, s) + Range(s, e) + Range(e, b);
  }

  lemma Resets(fr: Heads, x: Heads, y: Heads, z: Heads)
    ensures fr + x + y + z == fr + (x + y + z) && fr + x + y == fr + (x + y)
  {}

  /** `add_free_pages` past its recursion: the range lies on one side of the boundary. */
  method AddOneSide(st0: State, start: nat, end: nat, highmem: bool, ghost fr: Heads, ghost lv: Heads)
    returns (st: State, ghost g: Heads)
    requires BuddyOk(st0, fr, lv, MAX_ORDER) && ZonesOk(st0.frames) && |st0.frames| == TOTAL_PAGES
    requires start <= end <= TOTAL_PAGES && Range(start, end) !! Valids(st0.frames)
    requires if highmem then start >= HIGHMEM else end <= HIGHMEM
    ensures BuddyOk(st, g, lv, MAX_ORDER) && ZonesOk(st.frames) && |st.frames| == TOTAL_PAGES
    ensures Valids(st.frames) == Valids(st0.frames) + Range(start, end)
    ensures g == fr + Cut(start, end)
  {
    ghost var valid := Valids(st0.frames);
    forall x | start <= x < end ensures !st0.frames[x].valid {
      assert x in Range(start, end) && (st0.frames[x].valid ==> x in valid);
    }
    var f := Mark(st0.frames, start, end, highmem);
    MarkedLists(st0, f, fr, lv, start, end, MAX_ORDER);
    MarkedZones(st0.frames, f, start, end);
    st := State(f, st0.lists);
    ghost var v;
    SplitPoints(start, end);
    var splitStart, splitEnd := RoundUp(start, GROUP), RoundDown(end, GROUP);
    if splitStart >= splitEnd {
      st, g, v := InitFreePages(st, start, end - start, 0, end, MAX_ORDER, fr, lv, valid);
    } else {
      GroupAligned(splitStart);
      GroupAligned(splitEnd);
      st, g, v := InitThree(st, start, splitStart, splitEnd, end, fr, lv, valid);
    }
    Settle(f, st, g, lv, v);
  }

  /** The three calls of `init_free_pages`. */
  method InitThree(st0: State, start: nat, splitStart: nat, splitEnd: nat, end: nat, ghost fr: Heads, ghost lv: Heads, ghost valid: set<nat>)
    returns (st: State, ghost g: Heads, ghost v: set<nat>)
    requires Lists(st0, fr, lv, valid, MAX_ORDER) && start <= splitStart <= splitEnd <= end <= |st0.frames|
    requires Aligned(splitStart, MAX_ORDER) && Aligned(splitEnd, MAX_ORDER) && Range(start, end) !! valid
    ensures Lists(st, g, lv, v, MAX_ORDER) && SameFrames(st0.frames, st.frames)
    ensures g == fr + (Blocks(start, splitStart, 0) + Blocks(splitStart, splitEnd, MAX_ORDER) + Blocks(splitEnd, end, 0))
    ensures v == valid + Range(start, end)
  {
    ThreeRanges(start, splitStart, splitEnd, end, valid);
    st, g, v := InitFreePages(st0, start, splitStart - start, 0, splitStart, MAX_ORDER, fr, lv, valid);
    st, g, v := InitFreePages(st, splitStart, splitEnd - splitStart, MAX_ORDER, splitEnd, MAX_ORDER, g, lv, v);
    st, g, v := InitFreePages(st, splitEnd, end - splitEnd, 0, end, MAX_ORDER, g, lv, v);
    Resets(fr, Blocks(start, splitStart, 0), Blocks(splitStart, splitEnd, MAX_ORDER), Blocks(splitEnd, end, 0));
  }

  lemma Settle(f: seq<Frame>, st: State, g: Heads, lv: Heads, v: set<nat>)
    requires Lists(st, g, lv, v, MAX_ORDER) && SameFrames(f, st.frames) && v == Valids(f) && |f| == TOTAL_PAGES && ZonesOk(f)
    ensures BuddyOk(st, g, lv, MAX_ORDER) && ZonesOk(st.frames) && Valids(st.frames) == v
  {
    ValidsSame(f, st.frames);
    GroupAligned(TOTAL_PAGES);
  }

  /** Some free block holds frame `x`, all in the zone of `x`. */
  ghost predicate IsFree(frames: seq<Frame>, fr: Heads, x: nat) {
    exists i :: Holds(fr, i, x) && SameZone(frames, i, x)
  }

  predicate SameZone(frames: seq<Frame>, i: nat, x: nat) {
    i < |frames| && x < |frames| && frames[i].zone == frames[x].zone
  }

  /** A frame that has just become valid can only be in a free block. */
  lemma NewFrame(st0: State, fr0: Heads, st: State, fr: Heads, lv: Heads, x: nat)
    requires BuddyOk(st0, fr0, lv, MAX_ORDER) && BuddyOk(st, fr, lv, MAX_ORDER) && ZonesOk(st.frames)
    requires x in Valids(st.frames) && x !in Valids(st0.frames)
    ensures IsFree(st.frames, fr, x)
  {
    assert Covers(fr + lv, x);
    var i :| Holds(fr + lv, i, x);
    if i in lv {
      assert Holds(fr0 + lv, i, x);
      assert Covers(fr0 + lv, x);
    }
    BoundaryApart(st.frames);
    OneZone(st, fr, lv, MAX_ORDER, i, x);
    assert Holds(fr, i, x) && SameZone(st.frames, i, x);
  }

  lemma AllNewFrames(st0: State, fr0: Heads, st: State, fr: Heads, lv: Heads, a: nat, b: nat)
    requires BuddyOk(st0, fr0, lv, MAX_ORDER) && BuddyOk(st, fr, lv, MAX_ORDER) && ZonesOk(st.frames)
    requires Valids(st.frames) == Valids(st0.frames) + Range(a, b) && Range(a, b) !! Valids(st0.frames)
    ensures forall x :: x in Range(a, b) ==> IsFree(st.frames, fr, x)
  {
    forall x | x in Range(a, b) ensures IsFree(st.frames, fr, x) {
      NewFrame(st0, fr0, st, fr, lv, x);
    }
  }

  /** `add_free_pages`: every frame of the range lies in exactly one free block, of its own zone:
      a block of the largest order for each whole aligned group, and single frames for the rest.
      Nothing else changes. */
  method AddFreePages(st0: State, start: nat, end: nat, ghost fr: Heads, ghost lv: Heads)
    returns (st: State, ghost g: Heads)
    requires BuddyOk(st0, fr, lv, MAX_ORDER) && ZonesOk(st0.frames) && |st0.frames| == TOTAL_PAGES
    requires start <= end <= TOTAL_PAGES && Range(start, end) !! Valids(st0.frames)
    ensures BuddyOk(st, g, lv, MAX_ORDER) && ZonesOk(st.frames) && |st.frames| == TOTAL_PAGES
    ensures Valids(st.frames) == Valids(st0.frames) + Range(start, end)
    ensures g == fr + CutAtBoundary(start, end) && RangeAdded(fr, g, start, end)
    ensures forall x :: x in Range(start, end) ==> IsFree(st.frames, g, x)
    decreases if start < HIGHMEM < end then 1 else 0
  {
    if start >= HIGHMEM {
      st, g := AddOneSide(st0, start, end, true, fr, lv);
    } else if end <= HIGHMEM {
      st, g := AddOneSide(st0, start, end, false, fr, lv);
    } else {
      RangeSplit(start, HIGHMEM, end);
      RangeApart(start, HIGHMEM, end, end, Valids(st0.frames));
      st, g := AddFreePages(st0, start, HIGHMEM, fr, lv);
      st, g := AddFreePages(st, HIGHMEM, end, g, lv);
      Resets(fr, Cut(start, HIGHMEM), Cut(HIGHMEM, end), map[]);
    }
    AllNewFrames(st0, fr, st, g, lv, start, end);
    NoHeads(st0, fr, lv, start, end);
    AddedHeads(fr, start, end);
  }

  lemma RangeSplit(a: nat, m: nat, b: nat)
    requires a <= m <= b
    ensures Range(a, b) == Range(a, m) + Range(m, b) && Range(a, m) <= Range(a, b)
  {}

  // ---------------------------------------------------------------- kmalloc_early_init

  const EARLY_ORDER: nat := 12
  const EARLY_BLOCKS: nat := 4096

  /** The static array before anything has run: no block is free, every index is valid. */
  function EarlyFrames(): seq<Frame> { seq(EARLY_BLOCKS, _ => Frame(0, false, true, 0)) }

  lemma NoBlocks(st: State, max: nat)
    requires st.lists == map[]
    ensures Lists(st, map[], map[], {}, max)
  {
    var none: Heads := map[];
    assert none + none == none;
    assert forall x :: !Covers(none, x);
  }

  /** The early allocator starts with one free block of the largest order. */
  method EarlyInit() returns (st: State)
    ensures BuddyOk(st, map[0 := EARLY_ORDER], map[], EARLY_ORDER)
    ensures |st.frames| == EARLY_BLOCKS && forall x :: 0 <= x < |st.frames| ==> st.frames[x].zone == 0
  {
    st := State(EarlyFrames(), map[]);
    Powers();
    NoBlocks(st, EARLY_ORDER);
    LowIsMod(0, EARLY_ORDER);
    LowIsMod(EARLY_BLOCKS, EARLY_ORDER);
    FreeOne(st, map[], map[], {}, EARLY_ORDER, 0, EARLY_ORDER, Range(0, EARLY_BLOCKS));
    st := FreePage(st, 0, EARLY_ORDER);
    assert Valids(st.frames) == {} + Range(0, EARLY_BLOCKS);
  }
}

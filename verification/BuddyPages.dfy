/** The page allocator as its callers see it, and the early block allocator's start. */
module BuddyPages {
  import opened BuddyGeometry
  import opened BuddyTiling
  import opened BuddyState
  import opened BuddyAlloc
  import opened BuddyFree
  import opened BuddyRelease
  import opened BuddyCycle
  import opened BuddyInit

  lemma SameZones(f0: seq<Frame>, f: seq<Frame>)
    requires SameFrames(f0, f) && ZonesOk(f0)
    ensures ZonesOk(f) && Valids(f) == Valids(f0)
  {
    ValidsSame(f0, f);
  }

  /** Every frame of the block just taken is valid, of the block's zone, and in no other live
      block. */
  lemma TakenFrames(st: State, fr: Heads, lv: Heads, page: nat, x: nat)
    requires BuddyOk(st, fr, lv, MAX_ORDER) && ZonesOk(st.frames) && page in lv && In(x, page, lv[page])
    ensures x in Valids(st.frames) && SameZone(st.frames, page, x) && !Covers(lv - {page}, x)
  {
    var h := fr + lv;
    assert Holds(h, page, x);
    assert Covers(h, x);
    BoundaryApart(st.frames);
    OneZone(st, fr, lv, MAX_ORDER, page, x);
    forall i ensures !Holds(lv - {page}, i, x) {
      assert Holds(lv - {page}, i, x) ==> Holds(h, i, x);
    }
  }

  /** `pages`, `free_lists` and `highmem_free_lists` with the blocks they stand for. */
  class PageAllocator {
    var st: State
    ghost var free: Heads
    ghost var live: Heads

    ghost predicate Valid()
      reads this
    {
      BuddyOk(st, free, live, MAX_ORDER) && ZonesOk(st.frames) && |st.frames| == TOTAL_PAGES
    }

    /** `page_init` on the zeroed array. */
    constructor ()
      ensures Valid() && free == map[] && live == map[] && Valids(st.frames) == {}
    {
      var frames := seq(TOTAL_PAGES, _ => Frame(0, false, false, 0));
      st, free, live := State(frames, map[]), map[], map[];
      NoBlocks(State(frames, map[]), MAX_ORDER);
      Settle(frames, State(frames, map[]), map[], map[], {});
    }

    method AddFreePages(start: nat, end: nat)
      requires Valid() && start <= end <= TOTAL_PAGES && Range(start, end) !! Valids(st.frames)
      modifies this
      ensures Valid() && live == old(live) && free == old(free) + CutAtBoundary(start, end)
      ensures RangeAdded(old(free), free, start, end)
      ensures Valids(st.frames) == old(Valids(st.frames)) + Range(start, end)
      ensures forall x :: x in Range(start, end) ==> IsFree(st.frames, free, x)
    {
      st, free := BuddyInit.AddFreePages(st, start, end, free, live);
    }

    /** `alloc_pages`: a block exactly when some free block of the zone is large enough.  It is
        aligned, all its frames are of that zone and in no other live block, and it is cut from a
        smallest block that would do. */
    method AllocPages(highmem: bool, order: nat) returns (page: Option<nat>)
      requires Valid()
      modifies this
      ensures Valid() && Valids(st.frames) == old(Valids(st.frames))
      ensures var z := if highmem then 1 else 0;
        page.Some? <==> exists h :: Suits(old(st), old(free), h, z, order) && old(free)[h] <= MAX_ORDER
      ensures page.None? ==> free == old(free) && live == old(live)
      ensures page.Some? ==>
        && Aligned(page.value, order) && page.value !in old(live) && live == old(live)[page.value := order]
        && (page.value in old(free) && order <= old(free)[page.value])
        && free == SplitDown(old(free) - {page.value}, page.value, old(free)[page.value], order)
        && (forall h :: Suits(old(st), old(free), h, if highmem then 1 else 0, order) ==> old(free)[page.value] <= old(free)[h])
        && page.value == FirstOf(old(st), if highmem then 1 else 0, old(free)[page.value])
        && (forall x: nat :: In(x, page.value, order) ==>
             x in Valids(st.frames) && st.frames[x].zone == (if highmem then 1 else 0) && !Covers(old(live), x))
    {
      if order > MAX_ORDER {
        return None;
      }
      ghost var f0, lv0 := st.frames, live;
      page, st, free, live := Allocate(st, if highmem then 1 else 0, order, MAX_ORDER, free, live);
      SameZones(f0, st.frames);
      if page.Some? {
        assert live - {page.value} == lv0;
        forall x: nat | In(x, page.value, order)
          ensures x in Valids(st.frames) && SameZone(st.frames, page.value, x) && !Covers(lv0, x)
        {
          TakenFrames(st, free, live, page.value, x);
        }
      }
    }

    /** `free_pages`: keeps the allocator sound exactly when every free buddy it joins has the
        order of the block it is joined to. */
    method FreePages(page: nat)
      requires Valid() && page in live
      modifies this
      ensures live == old(live) - {page} && Valids(st.frames) == old(Valids(st.frames))
      ensures Uniform(old(st.frames), page, old(live)[page], MAX_ORDER) ==>
        Valid() && free == Coalesce(old(st.frames), old(free), page, old(live)[page], MAX_ORDER) && AtFront(st, free, page)
      ensures !Uniform(old(st.frames), page, old(live)[page], MAX_ORDER) ==>
        forall f :: !BuddyOk(st, f, live, MAX_ORDER)
    {
      ghost var f0 := st.frames;
      ghost var free' := Coalesce(st.frames, free, page, live[page], MAX_ORDER);
      st := Release(st, page, MAX_ORDER, free, live);
      SameZones(f0, st.frames);
      free, live := free', live - {page};
    }
  }

  /** The early allocator, from its start to lists that no longer make sense. */
  method EarlyMismatch() returns (st: State)
    ensures forall f :: !BuddyOk(st, f, map[1 := 0], EARLY_ORDER)
  {
    st := EarlyInit();
    st := MismatchRun(st, EARLY_ORDER);
  }
}

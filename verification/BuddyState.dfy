/** The variables of the two buddy allocators, mm/page.c and the early half of mm/kmalloc.c: an
    order and flags per frame, and a free list per zone and order.  The early allocator has one
    zone and only valid frames. */
module BuddyState {
  import opened Distinct
  import opened BuddyGeometry
  import opened BuddyTiling

  /** `struct page` or `struct block`. */
  datatype Frame = Frame(order: nat, free: bool, valid: bool, zone: nat)

  /** Which free list. */
  datatype Slot = Slot(zone: nat, order: nat)

  datatype State = State(frames: seq<Frame>, lists: map<Slot, seq<nat>>)

  function ListAt(st: State, z: nat, k: nat): seq<nat> {
    if Slot(z, k) in st.lists then st.lists[Slot(z, k)] else []
  }

  /** `list_remove(&frame->node)`. */
  function Unlisted(st: State, x: nat): State {
    st.(lists := map s | s in st.lists :: Without(st.lists[s], x))
  }

  /** `free_page`: flag, order, and on to the list of the frame's own zone. */
  function FreePage(st: State, x: nat, k: nat): State
    requires x < |st.frames|
  {
    var z := st.frames[x].zone;
    State(st.frames[x := st.frames[x].(free := true, order := k)],
          st.lists[Slot(z, k) := [x] + ListAt(st, z, k)])
  }

  function SetOrder(st: State, x: nat, k: nat): State
    requires x < |st.frames|
  {
    st.(frames := st.frames[x := st.frames[x].(order := k)])
  }

  function Valids(frames: seq<Frame>): set<nat> {
    set x | 0 <= x < |frames| && frames[x].valid
  }

  /** The flags and orders of all heads. */
  ghost predicate FlagsOk(frames: seq<Frame>, fr: Heads, lv: Heads) {
    && fr.Keys !! lv.Keys
    && (forall h :: h in fr ==> h < |frames| && frames[h].order == fr[h] && frames[h].free)
    && (forall h :: h in lv ==> h < |frames| && frames[h].order == lv[h] && !frames[h].free)
  }

  /** Block `h` belongs on list `k` of zone `z`. */
  predicate Belongs(frames: seq<Frame>, fr: Heads, h: nat, z: nat, k: nat) {
    h in fr && h < |frames| && fr[h] == k && frames[h].zone == z
  }

  /** One list holds exactly the free blocks that belong on it, each once. */
  ghost predicate ListOk(st: State, fr: Heads, z: nat, k: nat) {
    && NoDup(ListAt(st, z, k))
    && forall h :: h in ListAt(st, z, k) <==> Belongs(st.frames, fr, h, z, k)
  }

  ghost predicate Repr(st: State, fr: Heads, lv: Heads) {
    FlagsOk(st.frames, fr, lv) && forall z: nat, k: nat :: ListOk(st, fr, z, k)
  }

  /** Free blocks `fr` and live blocks `lv` exactly tile the valid frames, and the lists, flags
      and orders say so. */
  ghost predicate BuddyOk(st: State, fr: Heads, lv: Heads, max: nat) {
    && Aligned(|st.frames|, max) && Repr(st, fr, lv)
    && Tiling(fr + lv, Valids(st.frames), max)
  }

  /** The same while one block, `c` of order `o`, is in nobody's hands. */
  ghost predicate Mid(st: State, fr: Heads, lv: Heads, c: nat, o: nat, max: nat) {
    && Aligned(|st.frames|, max) && Repr(st, fr, lv)
    && c < |st.frames| && c !in fr && c !in lv && st.frames[c].order == o
    && Tiling((fr + lv)[c := o], Valids(st.frames), max)
  }

  /** No block of the largest order straddles two zones. */
  ghost predicate ZonesApart(frames: seq<Frame>, max: nat) {
    forall x: nat, y: nat :: x in Valids(frames) && y in Valids(frames) && In(x, y, max) ==>
      frames[x].zone == frames[y].zone
  }

  /** Then no block of a tiling does. */
  lemma OneZone(st: State, fr: Heads, lv: Heads, max: nat, i: nat, x: nat)
    requires BuddyOk(st, fr, lv, max) && ZonesApart(st.frames, max) && Holds(fr + lv, i, x)
    ensures x < |st.frames| && i < |st.frames| && st.frames[x].zone == st.frames[i].zone
  {
    assert BlockOk(fr + lv, i, max);
    assert Covers(fr + lv, x);
    assert Holds(fr + lv, i, i);
    assert Covers(fr + lv, i);
    Nest(x, i, (fr + lv)[i], max);
  }

  // ---------------------------------------------------------------- how the steps change the lists

  lemma UnlistedRepr(st: State, fr: Heads, lv: Heads, x: nat)
    requires Repr(st, fr, lv)
    ensures Repr(Unlisted(st, x), fr - {x}, lv)
  {
    var st' := Unlisted(st, x);
    forall z: nat, k: nat ensures ListOk(st', fr - {x}, z, k) {
      assert ListOk(st, fr, z, k);
      WithoutNoDup(ListAt(st, z, k), x);
      assert ListAt(st', z, k) == Without(ListAt(st, z, k), x);
    }
  }

  lemma FreePageRepr(st: State, fr: Heads, lv: Heads, x: nat, k: nat)
    requires Repr(st, fr, lv) && x < |st.frames| && x !in fr && x !in lv
    ensures Repr(FreePage(st, x, k), fr[x := k], lv)
  {
    var st', fr' := FreePage(st, x, k), fr[x := k];
    forall z: nat, j: nat ensures ListOk(st', fr', z, j) {
      assert ListOk(st, fr, z, j);
      var s, s' := ListAt(st, z, j), ListAt(st', z, j);
      var here := z == st.frames[x].zone && j == k;
      assert s' == if here then [x] + s else s;
      assert !Belongs(st.frames, fr, x, z, j) && x !in s;
      forall h ensures h in s' <==> Belongs(st'.frames, fr', h, z, j) {
        assert h in s <==> Belongs(st.frames, fr, h, z, j);
        assert h != x ==> (Belongs(st'.frames, fr', h, z, j) <==> Belongs(st.frames, fr, h, z, j));
        assert Belongs(st'.frames, fr', x, z, j) <==> here;
      }
    }
  }

  lemma SetOrderRepr(st: State, fr: Heads, lv: Heads, x: nat, k: nat)
    requires Repr(st, fr, lv) && x < |st.frames| && x !in fr && x !in lv
    ensures Repr(SetOrder(st, x, k), fr, lv)
  {
    var st' := SetOrder(st, x, k);
    forall z: nat, j: nat ensures ListOk(st', fr, z, j) {
      assert ListOk(st, fr, z, j);
      forall h ensures Belongs(st'.frames, fr, h, z, j) <==> Belongs(st.frames, fr, h, z, j) {}
    }
  }
}

/** Allocating a block and giving it back, and a run of the early allocator that shows the
    coalescing loop at fault. */
module BuddyCycle {
  import opened Bits
  import opened BuddyGeometry
  import opened BuddyTiling
  import opened BuddyState
  import opened BuddyAlloc
  import opened BuddyFree
  import opened BuddyRelease

  /** The halves cut off a block of order `o` at `c` on the way down to order `want`. */
  ghost predicate Halves(fr: Heads, c: nat, o: nat, want: nat) {
    forall k: nat :: want <= k < o ==> HalfIs(fr, c, k)
  }

  predicate HalfIs(fr: Heads, c: nat, k: nat) { BuddyOf(c, k) in fr && fr[BuddyOf(c, k)] == k }

  lemma BuddiesDiffer(c: nat, j: nat, k: nat)
    requires Aligned(c, k + 1) && j < k
    ensures BuddyOf(c, j) != BuddyOf(c, k)
  {
    AlignedDown(c, k + 1, j + 1);
    AlignedDown(c, k + 1, k);
    AlignedDown(c, k + 1, j);
    BuddyHalves(c, j);
    BuddyHalves(c, k);
    Pow2Monotone(j, k - 1);
  }

  /** Splitting frees just the halves. */
  lemma {:induction false} SplitDownAt(fr: Heads, c: nat, o: nat, want: nat, x: nat)
    requires want <= o && Aligned(c, o)
    ensures var r := SplitDown(fr, c, o, want);
      && Halves(r, c, o, want)
      && ((forall k: nat :: want <= k < o ==> x != BuddyOf(c, k)) ==> (x in r <==> x in fr) && (x in fr ==> r[x] == fr[x]))
    decreases o
  {
    if o > want {
      var b := BuddyOf(c, o - 1);
      var fr1 := fr[b := o - 1];
      AlignedDown(c, o, o - 1);
      SplitDownAt(fr1, c, o - 1, want, x);
      SplitDownAt(fr1, c, o - 1, want, b);
      forall k: nat | want <= k < o - 1 ensures b != BuddyOf(c, k) {
        BuddiesDiffer(c, k, o - 1);
      }
      var r := SplitDown(fr, c, o, want);
      forall k: nat | want <= k < o ensures HalfIs(r, c, k) {
        assert k < o - 1 ==> HalfIs(SplitDown(fr1, c, o - 1, want), c, k);
      }
    }
  }

  /** The half of order `k` is free, and was no block of its own before. */
  predicate CutOff(frames: seq<Frame>, fr: Heads, c: nat, k: nat) {
    var b := BuddyOf(c, k);
    b !in fr && Joins(frames, b) && frames[b].order == k
  }

  /** The coalescing loop joins the halves again, up to the order the block was taken at. */
  lemma {:induction false} Regrown(frames: seq<Frame>, fr: Heads, c: nat, o: nat, want: nat, max: nat)
    requires want <= o <= max && Aligned(c, o)
    requires forall k: nat :: want <= k < o ==> CutOff(frames, fr, c, k)
    ensures Coalesce(frames, SplitDown(fr, c, o, want), c, want, max) == Coalesce(frames, fr, c, o, max)
    ensures Uniform(frames, c, want, max) == Uniform(frames, c, o, max)
    decreases o
  {
    if o > want {
      var b := BuddyOf(c, o - 1);
      var fr1 := fr[b := o - 1];
      AlignedDown(c, o, o - 1);
      BuddyHalves(c, o - 1);
      forall k: nat | want <= k < o - 1 ensures CutOff(frames, fr1, c, k) {
        BuddiesDiffer(c, k, o - 1);
        assert CutOff(frames, fr, c, k);
      }
      assert CutOff(frames, fr, c, o - 1);
      Regrown(frames, fr1, c, o - 1, want, max);
      assert fr1 - {b} == fr;
    }
  }

  /** What the frames say after block `c` has been taken and split down to `want`. */
  lemma Halved(st0: State, fr0: Heads, lv0: Heads, st: State, c: nat, want: nat, max: nat, k: nat)
    requires BuddyOk(st0, fr0, lv0, max) && c in fr0 && want <= k < fr0[c]
    requires BuddyOk(st, SplitDown(fr0 - {c}, c, fr0[c], want), lv0[c := want], max)
    ensures CutOff(st.frames, fr0 - {c}, c, k) && BuddyOf(c, k) !in fr0
  {
    var h0, b, fr := fr0 + lv0, BuddyOf(c, k), SplitDown(fr0 - {c}, c, fr0[c], want);
    assert BlockOk(h0, c, max);
    AlignedDown(c, fr0[c], k);
    BuddyHalves(c, k);
    Nest(b, c, k + 1, fr0[c]);
    assert Holds(h0, c, b) && (b in h0 ==> Holds(h0, b, b));
    SplitDownAt(fr0 - {c}, c, fr0[c], want, b);
    assert HalfIs(fr, c, k);
    HeadValid(st, fr, lv0[c := want], b, max);
  }

  lemma HeadValid(st: State, fr: Heads, lv: Heads, b: nat, max: nat)
    requires BuddyOk(st, fr, lv, max) && b in fr + lv
    ensures b < |st.frames| && st.frames[b].valid && (st.frames[b].free <==> b in fr)
  {
    assert Holds(fr + lv, b, b);
    assert Covers(fr + lv, b);
  }

  /** Whether the buddy of the block that was taken is free. */
  lemma TopBuddy(st0: State, fr0: Heads, lv0: Heads, st: State, c: nat, want: nat, max: nat)
    requires BuddyOk(st0, fr0, lv0, max) && c in fr0 && want <= fr0[c]
    requires BuddyOk(st, SplitDown(fr0 - {c}, c, fr0[c], want), lv0[c := want], max)
    requires Valids(st.frames) == Valids(st0.frames)
    ensures var b := BuddyOf(c, fr0[c]); b != c && (Joins(st.frames, b) <==> b in fr0)
  {
    var b, fr := BuddyOf(c, fr0[c]), SplitDown(fr0 - {c}, c, fr0[c], want);
    assert BlockOk(fr0 + lv0, c, max);
    BuddyHalves(c, fr0[c]);
    if Joins(st.frames, b) {
      assert b in Valids(st.frames);
      BuddyIsHead(fr0 + lv0, c, Valids(st0.frames), max);
    }
    if b in fr0 {
      SplitDownAt(fr0 - {c}, c, fr0[c], want, b);
      forall k: nat | want <= k < fr0[c] ensures b != BuddyOf(c, k) {
        Halved(st0, fr0, lv0, st, c, want, max, k);
      }
      HeadValid(st, fr, lv0[c := want], b, max);
    }
  }

  lemma {:induction false} CoalesceBelow(frames: seq<Frame>, fr: Heads, c: nat, o: nat, max: nat, x: nat)
    requires x !in fr && x > c
    ensures x !in Coalesce(frames, fr, c, o, max)
    decreases max - o
  {
    var b := BuddyOf(c, o);
    if o < max && Joins(frames, b) {
      CoalesceBelow(frames, fr - {b}, Min(c, b), o + 1, max, x);
    }
  }

  /** Taking a block and giving it back restores the free blocks exactly when the buddy of the
      block that was split is not free (or the block was of the largest order). */
  lemma RoundTrip(st0: State, fr0: Heads, lv0: Heads, st: State, c: nat, want: nat, max: nat)
    requires BuddyOk(st0, fr0, lv0, max) && c in fr0 && want <= fr0[c]
    requires BuddyOk(st, SplitDown(fr0 - {c}, c, fr0[c], want), lv0[c := want], max)
    requires Valids(st.frames) == Valids(st0.frames)
    ensures var fr := SplitDown(fr0 - {c}, c, fr0[c], want);
      Uniform(st.frames, c, want, max) && Coalesce(st.frames, fr, c, want, max) == fr0 <==>
      fr0[c] == max || BuddyOf(c, fr0[c]) !in fr0
    ensures lv0[c := want] - {c} == lv0
  {
    var i := fr0[c];
    var b := BuddyOf(c, i);
    assert BlockOk(fr0 + lv0, c, max);
    forall k: nat | want <= k < i ensures CutOff(st.frames, fr0 - {c}, c, k) {
      Halved(st0, fr0, lv0, st, c, want, max, k);
    }
    Regrown(st.frames, fr0 - {c}, c, i, want, max);
    TopBuddy(st0, fr0, lv0, st, c, want, max);
    TopStep(st.frames, fr0, c, i, b, max);
  }

  lemma TopStep(frames: seq<Frame>, fr: Heads, c: nat, i: nat, b: nat, max: nat)
    requires c in fr && fr[c] == i <= max && b == BuddyOf(c, i) != c && (Joins(frames, b) <==> b in fr)
    ensures Uniform(frames, c, i, max) && Coalesce(frames, fr - {c}, c, i, max) == fr <==> i == max || b !in fr
  {
    if i < max && b in fr {
      CoalesceBelow(frames, fr - {c} - {b}, Min(c, b), i + 1, max, if c < b then b else c);
    } else {
      assert (fr - {c})[c := i] == fr;
    }
  }

  // ---------------------------------------------------------------- the loop at fault

  lemma BuddyOfZero(k: nat)
    ensures BuddyOf(0, k) == Pow2(k)
  {
    ZeroAligned(k);
    BuddyHalves(0, k);
  }

  lemma {:induction false} ZeroAligned(o: nat)
    ensures Aligned(0, o)
  {
    if o > 0 {
      ZeroAligned(o - 1);
    }
  }

  /** A single block of the largest order leaves its powers of two. */
  lemma {:induction false} PowersLeft(fr: Heads, o: nat, x: nat)
    requires forall h :: h in fr ==> h == Pow2(fr[h])
    ensures x in SplitDown(fr, 0, o, 0) ==> x == Pow2(SplitDown(fr, 0, o, 0)[x])
    decreases o
  {
    if o > 0 {
      BuddyOfZero(o - 1);
      PowersLeft(fr[BuddyOf(0, o - 1) := o - 1], o - 1, x);
    }
  }

  lemma FirstSplit(max: nat, fr: Heads)
    requires max >= 2 && fr == SplitDown(map[0 := max] - {0}, 0, max, 0)
    ensures 1 in fr && fr[1] == 0 && 2 in fr && fr[2] == 1 && 0 !in fr
    ensures forall x :: x in fr ==> x == Pow2(fr[x])
  {
    ZeroAligned(max);
    SplitDownAt(map[0 := max] - {0}, 0, max, 0, 0);
    assert HalfIs(fr, 0, 0) && HalfIs(fr, 0, 1);
    BuddyOfZero(0);
    BuddyOfZero(1);
    forall x ensures x in fr ==> x == Pow2(fr[x]) {
      PowersLeft(map[0 := max] - {0}, max, x);
    }
  }

  /** Every frame lies in zone 0. */
  ghost predicate OneZoneOnly(frames: seq<Frame>) {
    forall x :: 0 <= x < |frames| ==> frames[x].zone == 0
  }

  /** The only free block of the order asked for is the one that is taken. */
  method TakeExact(st0: State, x: nat, order: nat, max: nat, ghost fr: Heads, ghost lv: Heads) returns (r: Option<nat>, st: State)
    requires BuddyOk(st0, fr, lv, max) && OneZoneOnly(st0.frames)
    requires x in fr && fr[x] == order && forall h :: h in fr && fr[h] == order ==> h == x
    ensures r == Some(x) && BuddyOk(st, fr - {x}, lv[x := order], max) && OneZoneOnly(st.frames)
  {
    ghost var fr', lv';
    assert Suits(st0, fr, x, 0, order);
    HeadOrder(st0, fr, lv, x, max);
    r, st, fr', lv' := Allocate(st0, 0, order, max, fr, lv);
    assert fr[r.value] == order;
    assert r.value == x && fr' == fr - {x};
  }

  lemma HeadOrder(st: State, fr: Heads, lv: Heads, x: nat, max: nat)
    requires BuddyOk(st, fr, lv, max) && x in fr
    ensures fr[x] <= max && x < |st.frames|
  {
    assert BlockOk(fr + lv, x, max);
  }

  /** The first call of the run, on the one block there is. */
  method TakeFirst(st0: State, max: nat) returns (r: Option<nat>, st: State, ghost fr: Heads)
    requires max >= 2 && BuddyOk(st0, map[0 := max], map[], max) && OneZoneOnly(st0.frames)
    ensures r == Some(0) && BuddyOk(st, fr, map[0 := 0], max) && OneZoneOnly(st.frames)
    ensures 1 in fr && fr[1] == 0 && 2 in fr && fr[2] == 1 && 0 !in fr
    ensures forall x :: x in fr ==> x == Pow2(fr[x])
  {
    ghost var lv;
    ghost var all: Heads := map[0 := max];
    HeadOrder(st0, all, map[], 0, max);
    assert Suits(st0, all, 0, 0, 0);
    r, st, fr, lv := Allocate(st0, 0, 0, max, all, map[]);
    assert r.value == 0 && lv == map[0 := 0];
    FirstSplit(max, fr);
  }

  /** Five calls from the state the early allocator starts in: take order 0, order 1, order 0,
      then free the first and the second.  Block 2 of order 1 joins its free buddy 0 of order 0,
      and no choice of free blocks makes sense of the lists any more. */
  method MismatchRun(st0: State, max: nat) returns (st: State)
    requires max >= 2 && BuddyOk(st0, map[0 := max], map[], max) && OneZoneOnly(st0.frames)
    ensures forall f :: !BuddyOk(st, f, map[1 := 0], max)
  {
    ghost var fr;
    var a, b, c;
    a, st, fr := TakeFirst(st0, max);
    assert Pow2(0) == 1 && Pow2(1) == 2;
    b, st := TakeExact(st, 2, 1, max, fr, map[0 := 0]);
    c, st := TakeExact(st, 1, 0, max, fr - {2}, map[0 := 0, 2 := 1]);
    st := FreeBoth(st, max, fr - {2} - {1});
  }

  method FreeBoth(st0: State, max: nat, ghost fr: Heads) returns (st: State)
    requires max >= 2 && BuddyOk(st0, fr, map[0 := 0, 2 := 1, 1 := 0], max)
    ensures forall f :: !BuddyOk(st, f, map[1 := 0], max)
  {
    ghost var lv: Heads := map[0 := 0, 2 := 1, 1 := 0];
    assert BuddyOf(0, 0) == 1 && BuddyOf(2, 1) == 0;
    st := Release(st0, 0, max, fr, lv);
    assert lv - {0} == map[2 := 1, 1 := 0];
    HeadValid(st, fr[0 := 0], lv - {0}, 0, max);
    st := Release(st, 2, max, fr[0 := 0], map[2 := 1, 1 := 0]);
    assert map[2 := 1, 1 := 0] - {2} == map[1 := 0];
  }
}

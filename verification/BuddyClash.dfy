/** What becomes of the coalescing loop once it joins a free buddy of another order: the tiling
    is lost, whatever the loop does next. */
module BuddyClash {
  import opened Bits
  import opened Distinct
  import opened BuddyGeometry
  import opened BuddyTiling
  import opened BuddyState
  import opened BuddyAlloc
  import opened BuddyFree

  // ---------------------------------------------------------------- geometry

  lemma {:induction false} LowLow(x: nat, y: nat, m: nat, n: nat)
    requires m <= n && Low(x, n) == Low(y, n)
    ensures Low(x, m) == Low(y, m)
    decreases n
  {
    if m > 0 {
      assert x % 2 == y % 2 && Low(x / 2, n - 1) == Low(y / 2, n - 1);
      LowLow(x / 2, y / 2, m - 1, n - 1);
    }
  }

  lemma LowAbove(c: nat, m: nat, o: nat)
    requires Aligned(c, m) && o < m
    ensures Low(c + Pow2(o), m) == Pow2(o) && Shr(c, o) % 2 == 0
  {
    SplitBits(c, m);
    Pow2Less(o, m);
    ShrShl(Shr(c, m), m, Pow2(o));
    AlignedDown(c, m, o + 1);
    AlignedDown(c, m, o);
    LowStep(c, o);
  }

  lemma Pow2Less(a: nat, b: nat)
    requires a < b
    ensures Pow2(a) < Pow2(b)
  {
    Pow2Monotone(a, b - 1);
  }

  /** Flipping a bit of an index aligned above `j`: a bit above `j` leaves the low bits clear, a
      lower one sets just that bit. */
  lemma FlipLow(c: nat, o: nat, n: nat, j: nat)
    requires Aligned(c, j + 1)
    requires Low(n, o) == Low(c, o) && (if Shr(c, o) % 2 == 0 then n == c + Pow2(o) else n == c - Pow2(o))
    ensures Low(n, j + 1) == if o > j then 0 else Pow2(o)
    ensures o <= j ==> n == c + Pow2(o)
  {
    if o > j {
      LowLow(n, c, j + 1, o);
    } else {
      LowAbove(c, j + 1, o);
    }
  }

  /** The index `t` right after a too small buddy is never taken as a buddy itself. */
  lemma NeverTaken(c: nat, o: nat, b: nat, j: nat, t: nat)
    requires Aligned(b, j + 1) && Aligned(c, j + 1) && t == b + Pow2(j) && c <= b && (c == b ==> o > j)
    ensures BuddyOf(c, o) != t && Aligned(Min(c, BuddyOf(c, o)), j + 1)
  {
    var n := BuddyOf(c, o);
    BuddyLow(c, o, j);
    TopLow(b, j, t);
    FlipArith(c, o, n, b, j, t, Low(n, j + 1), Low(t, j + 1));
  }

  lemma BuddyLow(c: nat, o: nat, j: nat)
    requires Aligned(c, j + 1)
    ensures var n := BuddyOf(c, o);
      Low(n, j + 1) == (if o > j then 0 else Pow2(o)) && (o <= j ==> n == c + Pow2(o))
  {
    XorPow2(c, o);
    FlipLow(c, o, BuddyOf(c, o), j);
  }

  lemma TopLow(b: nat, j: nat, t: nat)
    requires Aligned(b, j + 1) && t == b + Pow2(j)
    ensures Low(t, j + 1) == Pow2(j)
  {
    LowAbove(b, j + 1, j);
  }

  lemma FlipArith(c: nat, o: nat, n: nat, b: nat, j: nat, t: nat, ln: nat, lt: nat)
    requires ln == (if o > j then 0 else Pow2(o)) && lt == Pow2(j) && (n == t ==> ln == lt)
    requires t == b + Pow2(j) && (c == b ==> o > j) && (o <= j ==> n == c + Pow2(o))
    ensures n != t
  {
    if o < j {
      Pow2Less(o, j);
    }
  }

  /** A block that grows down from `c` holds the index `p` of an aligned block of order `k` only
      once it is larger than that block. */
  lemma HoldsLate(c: nat, o: nat, p: nat, k: nat)
    requires Aligned(p, k) && c <= p && (c == p ==> o > k) && In(p, c, o)
    ensures o > k
  {
    if o <= k {
      Nest(p, c, o, k);
      InInterval(c, p, k);
    }
  }

  // ---------------------------------------------------------------- the loop after the clash

  /** The block `c` of order `o`, in nobody's hands, has a free buddy `b` of order `j < o`; `t` is
      the index right after that buddy. */
  datatype Clash = Clash(st: State, fr: Heads, lv: Heads, c: nat, o: nat, b: nat, j: nat, t: nat)

  ghost predicate ClashOk(k: Clash, max: nat) {
    && Mid(k.st, k.fr, k.lv, k.c, k.o, max) && k.o < max
    && k.b == BuddyOf(k.c, k.o) && k.b in k.fr && k.fr[k.b] == k.j < k.o
    && k.t == k.b + Pow2(k.j)
  }

  /** Around a clash. */
  lemma ClashFacts(k: Clash, max: nat)
    requires ClashOk(k, max)
    ensures Aligned(k.c, k.o) && Aligned(k.b, k.o) && Aligned(k.c, k.j + 1) && Aligned(k.b, k.j + 1) && k.b != k.c
    ensures In(k.t, k.b, k.o) && In(k.t, k.c, k.o + 1) && !In(k.b, k.c, k.o) && !In(k.t, k.c, k.o)
    ensures BuddyOf(k.b, k.j) == k.t
  {
    assert BlockOk((k.fr + k.lv)[k.c := k.o], k.c, max);
    BuddyHalves(k.c, k.o);
    AlignedDown(k.c, k.o, k.j + 1);
    AlignedDown(k.b, k.o, k.j + 1);
    Pow2Less(k.j, k.o);
    InInterval(k.t, k.b, k.o);
    HalvesCover(k.t, k.c, k.o);
    AlignedDown(k.b, k.o, k.j);
    BuddyHalves(k.b, k.j);
  }

  /** What the loop has done since: only frames `k.c` and those in `r` have changed, exactly `r`
      has left the lists, the block has moved down, and it holds `k.c` only together with `k.t`. */
  ghost predicate BadInv(st: State, c: nat, r: set<nat>, k: Clash) {
    && SameFrames(k.st.frames, st.frames) && c < |st.frames|
    && c <= Min(k.c, k.b) && Aligned(c, k.j + 1) && (c == k.c || c in r)
    && (c == k.b ==> st.frames[c].order > k.j) && (c == k.c ==> st.frames[c].order > k.o)
    && k.t !in r
    && (forall x :: 0 <= x < |st.frames| && x != k.c && x !in r ==> st.frames[x] == k.st.frames[x])
    && (forall z: nat, i: nat :: ListOk(st, k.fr - r, z, i))
  }

  lemma UnlistedLists(st: State, fr: Heads, x: nat)
    requires forall z: nat, i: nat :: ListOk(st, fr, z, i)
    ensures forall z: nat, i: nat :: ListOk(Unlisted(st, x), fr - {x}, z, i)
  {
    forall z: nat, i: nat ensures ListOk(Unlisted(st, x), fr - {x}, z, i) {
      assert ListOk(st, fr, z, i);
      WithoutNoDup(ListAt(st, z, i), x);
      assert ListAt(Unlisted(st, x), z, i) == Without(ListAt(st, z, i), x);
    }
  }

  lemma SetOrderLists(st: State, fr: Heads, x: nat, k: nat)
    requires x < |st.frames| && forall z: nat, i: nat :: ListOk(st, fr, z, i)
    ensures forall z: nat, i: nat :: ListOk(SetOrder(st, x, k), fr, z, i)
  {
    var st' := SetOrder(st, x, k);
    forall z: nat, i: nat ensures ListOk(st', fr, z, i) {
      assert ListOk(st, fr, z, i);
      forall h ensures Belongs(st'.frames, fr, h, z, i) <==> Belongs(st.frames, fr, h, z, i) {}
    }
  }

  /** One iteration of the loop as a state change. */
  function Joined(st: State, c: nat, b: nat): State
    requires c < |st.frames| && b < |st.frames|
  {
    var c' := Min(c, b);
    SetOrder(Unlisted(st, b), c', st.frames[c'].order + 1)
  }

  lemma JoinedLists(st: State, fr: Heads, r: set<nat>, c: nat, b: nat)
    requires c < |st.frames| && b < |st.frames| && forall z: nat, i: nat :: ListOk(st, fr - r, z, i)
    ensures forall z: nat, i: nat :: ListOk(Joined(st, c, b), fr - (r + {b}), z, i)
  {
    assert fr - r - {b} == fr - (r + {b});
    UnlistedLists(st, fr - r, b);
    SetOrderLists(Unlisted(st, b), fr - (r + {b}), Min(c, b), st.frames[Min(c, b)].order + 1);
  }

  lemma BadStart(k: Clash, max: nat)
    requires ClashOk(k, max)
    ensures k.b < |k.st.frames| && BadInv(Joined(k.st, k.c, k.b), Min(k.c, k.b), {k.b}, k)
  {
    ClashFacts(k, max);
    assert k.fr - {} == k.fr;
    JoinedLists(k.st, k.fr, {}, k.c, k.b);
    assert {} + {k.b} == {k.b};
  }

  lemma BadStep(st: State, c: nat, r: set<nat>, k: Clash, max: nat)
    requires ClashOk(k, max) && BadInv(st, c, r, k) && st.frames[c].order < max
    ensures var b := BuddyOf(c, st.frames[c].order);
      b < |st.frames| && BadInv(Joined(st, c, b), Min(c, b), r + {b}, k)
  {
    var o := st.frames[c].order;
    var b := BuddyOf(c, o);
    ClashFacts(k, max);
    BuddyInBounds(c, o, max, |st.frames|);
    NeverTaken(c, o, k.b, k.j, k.t);
    JoinedLists(st, k.fr, r, c, b);
  }

  /** The lists after the block has been given back, against any reading `fr` of them. */
  lemma Given(st: State, c: nat, o: nat, was: Heads, fr: Heads, lv: Heads, g: nat)
    requires c < |st.frames| && Repr(FreePage(st, c, o), fr, lv) && forall z: nat, i: nat :: ListOk(st, was, z, i)
    ensures c in fr && fr[c] == o && c !in lv
    ensures g != c ==> (g in fr <==> g in was && g < |st.frames|) && (g in fr ==> fr[g] == was[g])
  {
    var st' := FreePage(st, c, o);
    var z := st.frames[c].zone;
    assert ListOk(st', fr, z, o) && c in ListAt(st', z, o);
    assert Belongs(st'.frames, fr, c, z, o);
    if g != c && g in fr {
      var y, i := st'.frames[g].zone, fr[g];
      assert ListOk(st', fr, y, i) && ListOk(st, was, y, i);
      assert Belongs(st'.frames, fr, g, y, i);
      assert g in ListAt(st', y, i);
      assert g in ListAt(st, y, i);
      assert Belongs(st.frames, was, g, y, i);
    }
    if g != c && g in was && g < |st.frames| {
      var y, i := st.frames[g].zone, was[g];
      assert ListOk(st', fr, y, i) && ListOk(st, was, y, i);
      assert Belongs(st.frames, was, g, y, i);
      assert g in ListAt(st, y, i);
      assert g in ListAt(st', y, i);
      assert Belongs(st'.frames, fr, g, y, i);
    }
  }

  /** After the clash no reading of the lists makes free and live blocks tile the valid frames:
      the block given back either covers `k.t`, which has a block of its own or is not valid, or
      leaves `k.c` to nobody. */
  lemma BadEnd(st: State, c: nat, r: set<nat>, k: Clash, fr: Heads, max: nat)
    requires ClashOk(k, max) && BadInv(st, c, r, k)
    ensures !BuddyOk(FreePage(st, c, st.frames[c].order), fr, k.lv, max)
  {
    var o := st.frames[c].order;
    var st' := FreePage(st, c, o);
    ValidsSame(k.st.frames, st'.frames);
    if Repr(st', fr, k.lv) {
      Given(st, c, o, k.fr - r, fr, k.lv, c);
      if In(k.c, c, o) {
        CoversTwice(st, c, o, r, k, fr, max);
      } else {
        LeavesOut(st, c, o, r, k, fr, max);
      }
    }
  }

  lemma CoversTwice(st: State, c: nat, o: nat, r: set<nat>, k: Clash, fr: Heads, max: nat)
    requires ClashOk(k, max) && BadInv(st, c, r, k) && o == st.frames[c].order && Repr(FreePage(st, c, o), fr, k.lv)
    requires In(k.c, c, o) && c in fr && fr[c] == o && c !in k.lv
    ensures !Tiling(fr + k.lv, Valids(k.st.frames), max)
  {
    var h, h1, valid := fr + k.lv, (k.fr + k.lv)[k.c := k.o], Valids(k.st.frames);
    ClashFacts(k, max);
    HoldsLate(c, o, k.c, k.o);
    Nest(k.t, k.c, k.o + 1, o);
    assert Holds(h, c, k.t);
    if k.t in valid {
      BuddyIsHead(h1, k.b, valid, max);
      Given(st, c, o, k.fr - r, fr, k.lv, k.t);
      assert Holds(h, k.t, k.t);
    } else {
      assert Covers(h, k.t);
    }
  }

  lemma LeavesOut(st: State, c: nat, o: nat, r: set<nat>, k: Clash, fr: Heads, max: nat)
    requires ClashOk(k, max) && BadInv(st, c, r, k) && o == st.frames[c].order && Repr(FreePage(st, c, o), fr, k.lv)
    requires !In(k.c, c, o) && c in fr && fr[c] == o && c !in k.lv
    ensures !Tiling(fr + k.lv, Valids(k.st.frames), max)
  {
    var h, h1 := fr + k.lv, (k.fr + k.lv)[k.c := k.o];
    assert Holds(h1, k.c, k.c);
    assert Covers(h1, k.c);
    forall g: nat ensures !Holds(h, g, k.c) {
      Given(st, c, o, k.fr - r, fr, k.lv, g);
      assert g != c && g in h ==> g in h1 && g != k.c && h1[g] == h[g];
      assert Holds(h, g, k.c) && g != c ==> Holds(h1, g, k.c);
    }
    assert !Covers(h, k.c);
  }
}

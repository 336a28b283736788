/** mm/vmalloc.c, the list of areas: an ordered, gap-free tiling of the vmalloc range, as a
    sequence, and what allocating from it and freeing into it does to it. */
module VmAreas {
  import opened RbShape
  import opened RbSpec

  const PAGE: nat := 0x1000
  const VMALLOC_START: nat := PAGE
  const VMALLOC_END: nat := 0xC000_0000

  /** `struct vm_area`, with the address `id` it lives at. */
  datatype Area = Area(id: nat, start: nat, end: nat, free: bool)

  function Length(a: Area): int { a.end - a.start }

  /** The areas tile `[lo, hi)` with whole pages, none of them empty, and no two adjacent
      ones are free; `free` tells whether a free area comes before them. */
  predicate Tiles(s: seq<Area>, lo: nat, free: bool, hi: nat) {
    if s == [] then lo == hi
    else
      && s[0].start == lo < s[0].end && s[0].end % PAGE == 0 && !(free && s[0].free)
      && Tiles(s[1..], s[0].end, s[0].free, hi)
  }

  function EndOf(s: seq<Area>, lo: nat): nat {
    if s == [] then lo else s[|s| - 1].end
  }

  predicate LastFree(s: seq<Area>, free: bool) {
    if s == [] then free else s[|s| - 1].free
  }

  lemma {:induction false} TilesJoin(x: seq<Area>, y: seq<Area>, lo: nat, free: bool, hi: nat)
    ensures Tiles(x + y, lo, free, hi) <==>
      Tiles(x, lo, free, EndOf(x, lo)) && Tiles(y, EndOf(x, lo), LastFree(x, free), hi)
  {
    if x == [] {
      assert x + y == y;
    } else {
      assert (x + y)[1..] == x[1..] + y;
      TilesJoin(x[1..], y, x[0].end, x[0].free, hi);
    }
  }

  /** Around the area `m`. */
  lemma TilesAround(b: seq<Area>, m: Area, a: seq<Area>, lo: nat, free: bool, hi: nat)
    ensures Tiles(b + [m] + a, lo, free, hi) <==>
      && Tiles(b, lo, free, EndOf(b, lo))
      && m.start == EndOf(b, lo) < m.end && m.end % PAGE == 0 && !(LastFree(b, free) && m.free)
      && Tiles(a, m.end, m.free, hi)
  {
    assert b + [m] + a == b + ([m] + a);
    TilesJoin(b, [m] + a, lo, free, hi);
    assert ([m] + a)[1..] == a;
  }

  lemma {:induction false} TilesBound(s: seq<Area>, lo: nat, free: bool, hi: nat)
    requires Tiles(s, lo, free, hi)
    ensures lo <= hi && (lo % PAGE == 0 ==> hi % PAGE == 0)
  {
    if s != [] {
      TilesBound(s[1..], s[0].end, s[0].free, hi);
    }
  }

  lemma TilesWeaken(s: seq<Area>, lo: nat, hi: nat)
    requires Tiles(s, lo, true, hi)
    ensures Tiles(s, lo, false, hi)
  {}

  // ---------------------------------------------------------------- identities

  function Ids(s: seq<Area>): set<nat> {
    if s == [] then {} else {s[0].id} + Ids(s[1..])
  }

  predicate DistinctIds(s: seq<Area>) {
    s == [] || (s[0].id != NULL && s[0].id !in Ids(s[1..]) && DistinctIds(s[1..]))
  }

  lemma {:induction false} IdsJoin(x: seq<Area>, y: seq<Area>)
    ensures Ids(x + y) == Ids(x) + Ids(y)
    ensures DistinctIds(x + y) <==> DistinctIds(x) && DistinctIds(y) && Ids(x) !! Ids(y)
  {
    if x == [] {
      assert x + y == y;
    } else {
      assert (x + y)[1..] == x[1..] + y;
      IdsJoin(x[1..], y);
    }
  }

  lemma IdsAround(b: seq<Area>, m: Area, a: seq<Area>)
    ensures Ids(b + [m] + a) == Ids(b) + {m.id} + Ids(a)
    ensures DistinctIds(b + [m] + a) <==>
      DistinctIds(b) && DistinctIds(a) && Ids(b) !! Ids(a) && m.id != NULL && m.id !in Ids(b) && m.id !in Ids(a)
  {
    assert b + [m] + a == b + ([m] + a);
    IdsJoin(b, [m] + a);
    assert ([m] + a)[1..] == a;
  }

  predicate AreasOk(s: seq<Area>) {
    Tiles(s, VMALLOC_START, false, VMALLOC_END) && DistinctIds(s)
  }

  // ---------------------------------------------------------------- the live areas

  /** What the tree holds for an area: the closed range up to its last byte. */
  function ItemOf(a: Area): Item {
    Item(a.start, if a.end == 0 then 0 else a.end - 1, a.id)
  }

  /** The live areas but for those in `lost`, for which the tree could get no node. */
  function Live(s: seq<Area>, lost: set<nat> := {}): seq<Item> {
    if s == [] then [] else (if s[0].free || s[0].id in lost then [] else [ItemOf(s[0])]) + Live(s[1..], lost)
  }

  lemma {:induction false} LiveJoin(x: seq<Area>, y: seq<Area>, lost: set<nat>)
    ensures Live(x + y, lost) == Live(x, lost) + Live(y, lost)
  {
    if x == [] {
      assert x + y == y;
    } else {
      assert (x + y)[1..] == x[1..] + y;
      LiveJoin(x[1..], y, lost);
    }
  }

  lemma LiveAround(b: seq<Area>, m: Area, a: seq<Area>, lost: set<nat>)
    ensures m.free || m.id in lost ==> Live(b + [m] + a, lost) == Live(b, lost) + Live(a, lost)
    ensures !m.free && m.id !in lost ==> Live(b + [m] + a, lost) == Live(b, lost) + [ItemOf(m)] + Live(a, lost)
  {
    assert b + [m] + a == b + ([m] + a);
    LiveJoin(b, [m] + a, lost);
    assert ([m] + a)[1..] == a;
  }

  lemma {:induction false} LiveOthers(s: seq<Area>, lost: set<nat>, x: nat)
    requires x !in Ids(s)
    ensures Live(s, lost + {x}) == Live(s, lost) == Live(s, lost - {x})
  {
    if s != [] {
      LiveOthers(s[1..], lost, x);
    }
  }

  /** The live ranges of a tiling of `[lo, hi)` lie in it. */
  lemma {:induction false} LiveWithin(s: seq<Area>, lo: nat, free: bool, hi: nat, lost: set<nat>)
    requires Tiles(s, lo, free, hi)
    ensures forall y :: y in Live(s, lost) ==> lo <= y.start <= y.end < hi
  {
    if s != [] {
      LiveWithin(s[1..], s[0].end, s[0].free, hi, lost);
      TilesBound(s[1..], s[0].end, s[0].free, hi);
    }
  }

  // ---------------------------------------------------------------- allocation

  /** `alloc_vma` takes the area `m`, and splits off what is left if it is a page or more. */
  function Alloc(b: seq<Area>, m: Area, a: seq<Area>, len: nat, buddy: nat): seq<Area> {
    if Length(m) >= len + PAGE then
      b + [Area(m.id, m.start, m.start + len, false)] + ([Area(buddy, m.start + len, m.end, true)] + a)
    else
      b + [m.(free := false)] + a
  }

  /** The area handed out. */
  function Got(m: Area, len: nat): Area {
    Area(m.id, m.start, if Length(m) >= len + PAGE then m.start + len else m.end, false)
  }

  lemma SplitKeeps(b: seq<Area>, m: Area, a: seq<Area>, m1: Area, m2: Area)
    requires AreasOk(b + [m] + a) && m.free && m2.id != NULL && m2.id !in Ids(b + [m] + a)
    requires !m1.free && m2.free && m1.id == m.id && m1.start == m.start < m1.end == m2.start < m2.end == m.end
    requires m1.end % PAGE == 0
    ensures AreasOk(b + [m1] + ([m2] + a)) && Ids(b + [m1] + ([m2] + a)) == Ids(b + [m] + a) + {m2.id}
  {
    TilesAround(b, m, a, VMALLOC_START, false, VMALLOC_END);
    IdsAround(b, m, a);
    TilesAround([], m2, a, m1.end, false, VMALLOC_END);
    IdsAround([], m2, a);
    assert [] + [m2] + a == [m2] + a;
    TilesAround(b, m1, [m2] + a, VMALLOC_START, false, VMALLOC_END);
    IdsAround(b, m1, [m2] + a);
  }

  lemma WholeKeeps(b: seq<Area>, m: Area, a: seq<Area>)
    requires AreasOk(b + [m] + a) && m.free
    ensures AreasOk(b + [m.(free := false)] + a) && Ids(b + [m.(free := false)] + a) == Ids(b + [m] + a)
  {
    TilesAround(b, m, a, VMALLOC_START, false, VMALLOC_END);
    IdsAround(b, m, a);
    TilesWeaken(a, m.end, VMALLOC_END);
    TilesAround(b, m.(free := false), a, VMALLOC_START, false, VMALLOC_END);
    IdsAround(b, m.(free := false), a);
  }

  lemma AlignedStart(b: seq<Area>, m: Area, a: seq<Area>)
    requires AreasOk(b + [m] + a)
    ensures m.start % PAGE == 0 && m.end % PAGE == 0 && VMALLOC_START <= m.start < m.end <= VMALLOC_END
  {
    TilesAround(b, m, a, VMALLOC_START, false, VMALLOC_END);
    TilesBound(b, VMALLOC_START, false, m.start);
    TilesBound(a, m.end, m.free, VMALLOC_END);
  }

  /** The tiling, its identities and the absence of adjacent free areas survive an allocation. */
  lemma AllocKeeps(b: seq<Area>, m: Area, a: seq<Area>, len: nat, buddy: nat)
    requires AreasOk(b + [m] + a) && m.free && 0 < len <= Length(m) && len % PAGE == 0
    requires Length(m) >= len + PAGE ==> buddy != NULL && buddy !in Ids(b + [m] + a)
    ensures AreasOk(Alloc(b, m, a, len, buddy))
    ensures Ids(Alloc(b, m, a, len, buddy)) == Ids(b + [m] + a) + if Length(m) >= len + PAGE then {buddy} else {}
  {
    if Length(m) >= len + PAGE {
      AlignedStart(b, m, a);
      SplitKeeps(b, m, a, Got(m, len), Area(buddy, m.start + len, m.end, true));
    } else {
      WholeKeeps(b, m, a);
    }
  }

  lemma LiveRest(m: Area, a: seq<Area>, lost: set<nat>)
    requires m.free
    ensures Live([m] + a, lost) == Live(a, lost)
  {
    assert ([m] + a)[1..] == a;
  }

  lemma AllocLives(b: seq<Area>, m: Area, a: seq<Area>, len: nat, buddy: nat, lost: set<nat>)
    ensures m.id in lost ==> Live(Alloc(b, m, a, len, buddy), lost) == Live(b, lost) + Live(a, lost)
    ensures m.id !in lost ==> Live(Alloc(b, m, a, len, buddy), lost) == Live(b, lost) + [ItemOf(Got(m, len))] + Live(a, lost)
  {
    if Length(m) >= len + PAGE {
      var m2 := Area(buddy, m.start + len, m.end, true);
      LiveRest(m2, a, lost);
      LiveAround(b, Got(m, len), [m2] + a, lost);
    } else {
      LiveAround(b, Got(m, len), a, lost);
    }
  }

  lemma AllocShown(b: seq<Area>, m: Area, a: seq<Area>, len: nat, buddy: nat, lost: set<nat>)
    requires m.id !in Ids(b) && m.id !in Ids(a)
    ensures Live(Alloc(b, m, a, len, buddy), lost - {m.id}) == Live(b, lost) + [ItemOf(Got(m, len))] + Live(a, lost)
  {
    LiveOthers(b, lost, m.id);
    LiveOthers(a, lost, m.id);
    AllocLives(b, m, a, len, buddy, lost - {m.id});
  }

  lemma AllocHidden(b: seq<Area>, m: Area, a: seq<Area>, len: nat, buddy: nat, lost: set<nat>)
    requires m.id !in Ids(b) && m.id !in Ids(a)
    ensures Live(Alloc(b, m, a, len, buddy), lost + {m.id}) == Live(b, lost) + Live(a, lost)
  {
    LiveOthers(b, lost, m.id);
    LiveOthers(a, lost, m.id);
    AllocLives(b, m, a, len, buddy, lost + {m.id});
  }

  /** The range handed out overlaps no live one, and is the one that joins them if the tree gets
      its node. */
  lemma AllocLive(b: seq<Area>, m: Area, a: seq<Area>, len: nat, buddy: nat, lost: set<nat>)
    requires AreasOk(b + [m] + a) && m.free && 0 < len <= Length(m) && len % PAGE == 0
    ensures var s, got, r := Live(b + [m] + a, lost), Got(m, len), Alloc(b, m, a, len, buddy);
      && !AnyOverlap(s, got.start, got.end - 1)
      && Live(r, lost - {m.id}) == Inserted(s, ItemOf(got)) && Live(r, lost + {m.id}) == s
  {
    TilesAround(b, m, a, VMALLOC_START, false, VMALLOC_END);
    IdsAround(b, m, a);
    LiveWithin(b, VMALLOC_START, false, m.start, lost);
    LiveWithin(a, m.end, true, VMALLOC_END, lost);
    LiveAround(b, m, a, lost);
    AllocShown(b, m, a, len, buddy, lost);
    AllocHidden(b, m, a, len, buddy, lost);
    InsertedBetween(Live(b, lost), Live(a, lost), ItemOf(Got(m, len)));
    NoneOverlaps(Live(b, lost), Live(a, lost), ItemOf(Got(m, len)));
  }

  // ---------------------------------------------------------------- freeing

  /** A live area swallows the free area `p` before it: the tiling around it is kept, and the
      area before that is not free. */
  lemma SwallowPrev(b: seq<Area>, p: Area, m: Area, a: seq<Area>, lost: set<nat>)
    requires AreasOk((b + [p]) + [m] + a) && p.free && !m.free
    ensures p.end == m.start && AreasOk(b + [m.(start := p.start)] + a) && !LastFree(b, false)
    ensures Ids(b + [m.(start := p.start)] + a) == Ids((b + [p]) + [m] + a) - {p.id} && p.id != m.id
    ensures Live(b + [p], lost) == Live(b, lost)
  {
    var m' := m.(start := p.start);
    TilesAround(b + [p], m, a, VMALLOC_START, false, VMALLOC_END);
    IdsAround(b + [p], m, a);
    TilesAround(b, p, [], VMALLOC_START, false, m.start);
    IdsAround(b, p, []);
    LiveAround(b, p, [], lost);
    assert b + [p] + [] == b + [p];
    TilesBound(b, VMALLOC_START, false, p.start);
    TilesAround(b, m', a, VMALLOC_START, false, VMALLOC_END);
    IdsAround(b, m', a);
  }

  lemma SwallowNext(b: seq<Area>, m: Area, n: Area, a: seq<Area>, lost: set<nat>)
    requires AreasOk(b + [m] + ([n] + a)) && n.free && !m.free
    ensures m.end == n.start && AreasOk(b + [m.(end := n.end)] + a) && (a != [] ==> !a[0].free)
    ensures Ids(b + [m.(end := n.end)] + a) == Ids(b + [m] + ([n] + a)) - {n.id} && n.id != m.id
    ensures Live([n] + a, lost) == Live(a, lost)
  {
    var m' := m.(end := n.end);
    TilesAround(b, m, [n] + a, VMALLOC_START, false, VMALLOC_END);
    IdsAround(b, m, [n] + a);
    TilesAround([], n, a, m.end, false, VMALLOC_END);
    IdsAround([], n, a);
    LiveAround([], n, a, lost);
    assert [] + [n] + a == [n] + a;
    TilesBound(a, n.end, true, VMALLOC_END);
    TilesWeaken(a, n.end, VMALLOC_END);
    TilesAround(b, m', a, VMALLOC_START, false, VMALLOC_END);
    IdsAround(b, m', a);
  }

  /** A live area with no free neighbour becomes free, and its range leaves the live ones. */
  lemma Released(b: seq<Area>, m: Area, a: seq<Area>, lost: set<nat>)
    requires AreasOk(b + [m] + a) && !m.free && !LastFree(b, false) && (a != [] ==> !a[0].free)
    ensures AreasOk(b + [m.(free := true)] + a)
    ensures Ids(b + [m.(free := true)] + a) == Ids(b + [m] + a)
    ensures Live(b + [m.(free := true)] + a, lost) == Live(b, lost) + Live(a, lost)
  {
    var m' := m.(free := true);
    TilesAround(b, m, a, VMALLOC_START, false, VMALLOC_END);
    TilesAround(b, m', a, VMALLOC_START, false, VMALLOC_END);
    IdsAround(b, m, a);
    IdsAround(b, m', a);
    LiveAround(b, m', a, lost);
  }
}

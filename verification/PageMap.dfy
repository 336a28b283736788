/** `page_map` and `page_unmap` as updates of a flat map from page numbers to frames. */
module PageMap {
  import opened Log2
  import opened PageWords
  import opened PageTable

  /** `size` bytes in whole pages. */
  function PageCount(size: nat): nat { (size + PAGE - 1) / PAGE }

  function PageOf(x: nat): nat { x / PAGE }

  /** The pages that either loop visits hold all of `[va, va + size)` if and only if the offsets of
      the first and the last byte add up to less than a page: the count is taken from `size` alone,
      so that an unaligned range may lack its last page. */
  lemma Coverage(va: nat, size: nat)
    ensures (forall x: nat :: va <= x < va + size ==> PageOf(va) <= PageOf(x) < PageOf(va) + PageCount(size)) <==>
            size == 0 || va % PAGE + (size - 1) % PAGE < PAGE
  {
    if size > 0 {
      var last := va + size - 1;
      assert PageOf(last) < PageOf(va) + PageCount(size) <==> va % PAGE + (size - 1) % PAGE < PAGE;
      assert forall x: nat :: va <= x <= last ==> PageOf(va) <= PageOf(x) <= PageOf(last);
    }
  }

  /** Two bytes across a page boundary get one page. */
  lemma Uncovered()
    ensures PageCount(2) == 1 && PageOf(PAGE - 1) != PageOf(PAGE)
  {}

  /** Physical page `k` of a range that starts at `pa`, in 32 bits. */
  function PhysPage(pa: nat, k: nat): nat { (pa / PAGE + k) % PAGES * PAGE }

  /** The range stays below 4 GB and off the directory's own entry. */
  ghost predicate RangeOk(va: nat, size: nat) {
    && va < WORD && size < WORD && va / PAGE + PageCount(size) <= PAGES
    && forall p :: va / PAGE <= p < va / PAGE + PageCount(size) ==> Mappable(p)
  }

  /** What a loop writes: consecutive frames with flags, or nothing. */
  datatype Fill = Frames(first: nat, pa: nat, flag: nat) | Nothing

  function WordFor(f: Fill, p: nat): nat {
    if f.Frames? && p >= f.first then MakeEntry(PhysPage(f.pa, p - f.first), f.flag) else 0
  }

  /** Pages from `first` up to `next` have their new entries, the others what they had. */
  ghost predicate Changed(s0: Space, s: Space, first: nat, next: nat, f: Fill) {
    forall p: nat :: Mappable(p) ==> Entry(s, p) == if first <= p < next then WordFor(f, p) else Entry(s0, p)
  }

  /** Only the entry of page `p` has changed. */
  ghost predicate OneChanged(s0: Space, s: Space, p: nat, w: nat) {
    forall q: nat :: Mappable(q) ==> Entry(s, q) == if q == p then w else Entry(s0, q)
  }

  lemma Round(s0: Space, s: Space, s': Space, first: nat, p: nat, f: Fill)
    requires first <= p && Changed(s0, s, first, p, f) && OneChanged(s, s', p, WordFor(f, p))
    ensures Changed(s0, s', first, p + 1, f)
  {
    forall q: nat | Mappable(q) ensures Entry(s', q) == if first <= q < p + 1 then WordFor(f, q) else Entry(s0, q) {
      assert Entry(s, q) == if first <= q < p then WordFor(f, q) else Entry(s0, q);
    }
  }

  /** The loop counter of either loop does not wrap. */
  lemma Counter(va: nat, size: nat, k: nat)
    requires RangeOk(va, size) && k * PAGE < size
    ensures k < PageCount(size) && Mappable(va / PAGE + k) && (k + 1) * PAGE < WORD
  {
    assert !(va / PAGE <= SELF * ENTRIES < va / PAGE + PageCount(size)) by {
      assert !Mappable(SELF * ENTRIES);
    }
  }

  lemma Steps(va: nat, first: nat, k: nat)
    requires va == (first + k) * PAGE % WORD && first + k < PAGES
    ensures va < WORD && va / PAGE == first + k && (va + PAGE) % WORD == (first + k + 1) * PAGE % WORD
  {}

  lemma NextPhys(pa: nat, k: nat)
    requires pa < WORD
    ensures (PhysPage(pa, k) + PAGE) % WORD == PhysPage(pa, k + 1) && PhysPage(pa, k) < WORD && PhysPage(pa, 0) == pa - pa % PAGE
  {}

  /** The variables of either loop after `k` rounds. */
  predicate AtRound(va: nat, pa: nat, offset: nat, first: nat, pa0: nat, k: nat) {
    va == (first + k) * PAGE % WORD && pa == PhysPage(pa0, k) && offset == k * PAGE
  }

  lemma Tick(va: nat, pa: nat, offset: nat, va0: nat, pa0: nat, size: nat, k: nat)
    requires AtRound(va, pa, offset, va0 / PAGE, pa0, k) && RangeOk(va0, size) && pa0 < WORD && offset < size
    ensures k < PageCount(size) && va < WORD && va / PAGE == va0 / PAGE + k && Mappable(va / PAGE)
    ensures AtRound((va + PAGE) % WORD, (pa + PAGE) % WORD, (offset + PAGE) % WORD, va0 / PAGE, pa0, k + 1)
  {
    Counter(va0, size, k);
    NextPhys(pa0, k);
    Steps(va, va0 / PAGE, k);
  }

  lemma LastRound(offset: nat, size: nat, k: nat)
    requires offset == k * PAGE && k <= PageCount(size) && offset >= size
    ensures k == PageCount(size)
  {}

  /** `*get_pte(pgdir, va) = w` */
  method SetPte(s0: Space, va: nat, w: nat) returns (s: Space)
    requires SpaceOk(s0) && va < WORD && Mappable(va / PAGE)
    ensures SpaceOk(s) && OneChanged(s0, s, va / PAGE, w) && DirGrown(s0, s)
  {
    var base, index;
    s, base, index := GetPte(s0, va);
    ghost var p, s1 := va / PAGE, s;
    WrittenOk(s, p, w);
    forall q: nat | Mappable(q) ensures Entry(Written(s1, p, w), q) == if q == p then w else Entry(s0, q) {
      WrittenEntry(s1, p, w, q);
      assert Entry(s1, q) == Entry(s0, q);
    }
    assert DirOk(s, p / ENTRIES) && TableBase(s, base);
    s := s.(tables := s.tables[base := SetAt(s.tables[base], index, w)]);
  }

  /** `page_map`: exactly the pages of the range get consecutive frames and the flags. */
  method PageMap(s0: Space, va0: nat, pa0: nat, size: nat, flag: nat) returns (s: Space)
    requires SpaceOk(s0) && RangeOk(va0, size) && pa0 < WORD
    ensures SpaceOk(s) && DirGrown(s0, s)
    ensures Changed(s0, s, va0 / PAGE, va0 / PAGE + PageCount(size), Frames(va0 / PAGE, pa0, flag))
  {
    s := s0;
    var va: nat, pa: nat, offset: nat := va0 - va0 % PAGE, pa0 - pa0 % PAGE, 0;
    ghost var first, k: nat := va0 / PAGE, 0;
    ghost var f := Frames(first, pa0, flag);
    NextPhys(pa0, 0);
    while offset < size
      invariant SpaceOk(s) && DirGrown(s0, s) && Changed(s0, s, first, first + k, f)
      invariant AtRound(va, pa, offset, first, pa0, k) && k <= PageCount(size)
      decreases PageCount(size) - k
    {
      Tick(va, pa, offset, va0, pa0, size, k);
      ghost var s1 := s;
      s := SetPte(s, va, MakeEntry(pa, flag));
      Round(s0, s1, s, first, first + k, f);
      GrownTwice(s0, s1, s);
      va := (va + PAGE) % WORD;
      pa := (pa + PAGE) % WORD;
      offset := (offset + PAGE) % WORD;
      k := k + 1;
    }
    LastRound(offset, size, k);
  }

  /** `page_unmap`: exactly the pages of the range lose their entry. */
  method PageUnmap(s0: Space, va0: nat, size: nat) returns (s: Space)
    requires SpaceOk(s0) && RangeOk(va0, size)
    ensures SpaceOk(s) && DirGrown(s0, s)
    ensures Changed(s0, s, va0 / PAGE, va0 / PAGE + PageCount(size), Nothing)
  {
    s := s0;
    var va: nat, offset: nat := va0 - va0 % PAGE, 0;
    ghost var first, k: nat := va0 / PAGE, 0;
    while offset < size
      invariant SpaceOk(s) && DirGrown(s0, s) && Changed(s0, s, first, first + k, Nothing)
      invariant AtRound(va, PhysPage(0, k), offset, first, 0, k) && k <= PageCount(size)
      decreases PageCount(size) - k
    {
      Tick(va, PhysPage(0, k), offset, va0, 0, size, k);
      ghost var s1 := s;
      s := SetPte(s, va, 0);
      Round(s0, s1, s, first, first + k, Nothing);
      GrownTwice(s0, s1, s);
      va := (va + PAGE) % WORD;
      offset := (offset + PAGE) % WORD;
      k := k + 1;
    }
    LastRound(offset, size, k);
  }

  // ---------------------------------------------------------------- the flat map

  datatype Frame = Frame(number: nat, flags: nat, writable: bool)

  /** One page as the processor reads it: it may be written if both the directory entry and the
      table entry allow it. */
  function Reading(s: Space, p: nat): Frame
    requires p / ENTRIES < |s.dir|
  {
    var w := Entry(s, p);
    Frame(w / PAGE, w % PAGE, Writes(s.dir[p / ENTRIES]) && Writes(w))
  }

  /** What the processor makes of the tables: frame, flags and rights of every page present. */
  function Flat(s: Space): map<nat, Frame> {
    map p: nat | p < PAGES && Mappable(p) && p / ENTRIES < |s.dir| && Present(Entry(s, p)) :: Reading(s, p)
  }

  /** The directory stands in no way of writing page `p`. */
  predicate Open(s: Space, p: nat) {
    p / ENTRIES < |s.dir| && (!Present(s.dir[p / ENTRIES]) || Writes(s.dir[p / ENTRIES]))
  }

  /** The range as a piece of flat map. */
  function Piece(s: Space, first: nat, n: nat, pa: nat, flag: nat): map<nat, Frame> {
    map p: nat | Mappable(p) && first <= p < first + n ::
      Frame((pa / PAGE + (p - first)) % PAGES, FlagBits(flag), Open(s, p) && Writes(flag))
  }

  lemma FillReads(first: nat, pa: nat, flag: nat, p: nat)
    requires pa < WORD && flag < PAGE && p >= first
    ensures var w := WordFor(Frames(first, pa, flag), p);
      && Present(w) && w / PAGE == (pa / PAGE + (p - first)) % PAGES && w % PAGE == FlagBits(flag)
      && (Writes(w) <==> Writes(flag))
  {
    EntryReads(PhysPage(pa, p - first), flag);
    WritesLow(WordFor(Frames(first, pa, flag), p));
  }

  /** The write flag is among the low twelve bits. */
  lemma WritesLow(w: nat)
    ensures Writes(w) <==> Writes(w % PAGE)
  {}

  /** A page that is present hangs off a directory entry that is, and what it allows has not changed
      since it was there first. */
  lemma DirRights(s0: Space, s: Space, p: nat)
    requires DirGrown(s0, s) && p / ENTRIES < |s.dir| && Present(s.dir[p / ENTRIES])
    ensures Writes(s.dir[p / ENTRIES]) <==> Open(s0, p)
  {
    var i := p / ENTRIES;
    assert EntryGrown(s0.dir[i], s.dir[i]);
    WritesLow(s.dir[i]);
  }

  lemma EntryPresent(s: Space, p: nat)
    requires Present(Entry(s, p))
    ensures p / ENTRIES < |s.dir| && Present(s.dir[p / ENTRIES])
  {
    PresentIs(0);
  }

  /** A page whose entry has not changed reads as before. */
  lemma SameReading(s0: Space, s: Space, p: nat)
    requires DirGrown(s0, s) && Mappable(p) && Entry(s, p) == Entry(s0, p)
    ensures (p in Flat(s) <==> p in Flat(s0)) && (p in Flat(s) ==> Flat(s)[p] == Flat(s0)[p])
  {
    if Present(Entry(s, p)) {
      EntryPresent(s0, p);
      assert EntryGrown(s0.dir[p / ENTRIES], s.dir[p / ENTRIES]);
    }
  }

  lemma MapAt(s0: Space, s: Space, first: nat, n: nat, pa: nat, flag: nat, p: nat)
    requires DirGrown(s0, s) && Changed(s0, s, first, first + n, Frames(first, pa, flag)) && pa < WORD && flag < PAGE && Mappable(p)
    ensures first <= p < first + n ==> p in Flat(s) && Flat(s)[p] == Piece(s0, first, n, pa, flag)[p]
    ensures !(first <= p < first + n) ==> (p in Flat(s) <==> p in Flat(s0)) && (p in Flat(s) ==> Flat(s)[p] == Flat(s0)[p])
  {
    if first <= p < first + n {
      FillReads(first, pa, flag, p);
      EntryPresent(s, p);
      DirRights(s0, s, p);
      assert Flat(s)[p] == Reading(s, p);
    } else {
      SameReading(s0, s, p);
    }
  }

  /** At `p`, map `a` is `b` updated by `c`. */
  predicate Overlaid(a: map<nat, Frame>, b: map<nat, Frame>, c: map<nat, Frame>, p: nat) {
    if p in c then p in a && a[p] == c[p] else (p in a <==> p in b) && (p in a ==> a[p] == b[p])
  }

  lemma Overlay(a: map<nat, Frame>, b: map<nat, Frame>, c: map<nat, Frame>)
    requires forall p :: Overlaid(a, b, c, p)
    ensures a == b + c
  {
    forall p ensures (p in a <==> p in b + c) && (p in a ==> a[p] == (b + c)[p]) {
      assert p in a || p in b + c ==> Overlaid(a, b, c, p);
    }
  }

  /** Mapping is an update of the flat map by the whole range.  Its pages may be written if and only
      if the write flag is given and the directory entry was missing or allows it. */
  lemma MapRefines(s0: Space, s: Space, first: nat, n: nat, pa: nat, flag: nat)
    requires DirGrown(s0, s) && Changed(s0, s, first, first + n, Frames(first, pa, flag)) && pa < WORD && flag < PAGE
    ensures Flat(s) == Flat(s0) + Piece(s0, first, n, pa, flag)
  {
    var a, b, c := Flat(s), Flat(s0), Piece(s0, first, n, pa, flag);
    forall p: nat ensures Overlaid(a, b, c, p) {
      if Mappable(p) {
        MapAt(s0, s, first, n, pa, flag, p);
      }
    }
    Overlay(a, b, c);
  }

  function Outside(m: map<nat, Frame>, first: nat, n: nat): map<nat, Frame> {
    map p | p in m && !(first <= p < first + n) :: m[p]
  }

  /** Unmapping takes the whole range out. */
  lemma UnmapRefines(s0: Space, s: Space, first: nat, n: nat)
    requires DirGrown(s0, s) && Changed(s0, s, first, first + n, Nothing)
    ensures Flat(s) == Outside(Flat(s0), first, n)
  {
    PresentIs(0);
    var a, b := Flat(s), Outside(Flat(s0), first, n);
    forall p: nat ensures (p in a <==> p in b) && (p in a ==> a[p] == b[p]) {
      if Mappable(p) && !(first <= p < first + n) {
        SameReading(s0, s, p);
      }
    }
    assert a.Keys == b.Keys;
  }

  /** Unmapping what has just been mapped restores the flat map exactly when nothing in the range
      was mapped before. */
  lemma MapUnmap(s0: Space, s1: Space, s2: Space, first: nat, n: nat, f: Fill)
    requires DirGrown(s0, s1) && DirGrown(s1, s2)
    requires Changed(s0, s1, first, first + n, f) && Changed(s1, s2, first, first + n, Nothing)
    ensures Flat(s2) == Flat(s0) <==> forall p :: first <= p < first + n ==> p !in Flat(s0)
  {
    forall p: nat | Mappable(p) ensures Entry(s2, p) == if first <= p < first + n then 0 else Entry(s0, p) {
      assert Entry(s1, p) == if first <= p < first + n then WordFor(f, p) else Entry(s0, p);
    }
    GrownTwice(s0, s1, s2);
    UnmapRefines(s0, s2, first, n);
    Undone(Flat(s0), first, n);
  }

  lemma Undone(m: map<nat, Frame>, first: nat, n: nat)
    ensures Outside(m, first, n) == m <==> forall p :: first <= p < first + n ==> p !in m
  {
    var r := Outside(m, first, n);
    forall p ensures (p in r <==> p in m && !(first <= p < first + n)) && (p in r ==> r[p] == m[p]) {}
    if forall p :: first <= p < first + n ==> p !in m {
      assert r.Keys == m.Keys;
    }
  }

  /** Every entry of the directory that is present allows writing, as `get_pte` makes them. */
  ghost predicate AllOpen(s: Space) { forall p: nat :: Mappable(p) ==> Open(s, p) }

  lemma StaysOpen(s0: Space, s: Space)
    requires DirGrown(s0, s) && AllOpen(s0)
    ensures AllOpen(s)
  {
    forall p: nat | Mappable(p) ensures Open(s, p) {
      assert Open(s0, p) && EntryGrown(s0.dir[p / ENTRIES], s.dir[p / ENTRIES]);
      WritesLow(s.dir[p / ENTRIES]);
    }
  }

  /** `pgdir` with everything it points to. */
  class AddressSpace {
    var space: Space

    ghost predicate Valid()
      reads this
    {
      SpaceOk(space)
    }

    constructor (s: Space)
      requires SpaceOk(s)
      ensures Valid() && space == s
    {
      space := s;
    }

    /** The pages mapped with the write flag may be written, if the directory was made by calls like
        this one. */
    method Map(va: nat, pa: nat, size: nat, flag: nat)
      requires Valid() && RangeOk(va, size) && pa < WORD
      modifies this
      ensures Valid() && Changed(old(space), space, va / PAGE, va / PAGE + PageCount(size), Frames(va / PAGE, pa, flag))
      ensures flag < PAGE ==> Flat(space) == old(Flat(space)) + Piece(old(space), va / PAGE, PageCount(size), pa, flag)
      ensures old(AllOpen(space)) ==> AllOpen(space)
      ensures old(AllOpen(space)) && flag < PAGE ==>
        forall p :: va / PAGE <= p < va / PAGE + PageCount(size) ==> p in Flat(space) && (Flat(space)[p].writable <==> Writes(flag))
    {
      ghost var s0 := space;
      space := PageMap(space, va, pa, size, flag);
      if flag < PAGE {
        MapRefines(s0, space, va / PAGE, PageCount(size), pa, flag);
      }
      if AllOpen(s0) {
        StaysOpen(s0, space);
        assert flag < PAGE ==> forall p :: va / PAGE <= p < va / PAGE + PageCount(size) ==> Open(s0, p);
      }
    }

    method Unmap(va: nat, size: nat)
      requires Valid() && RangeOk(va, size)
      modifies this
      ensures Valid()
      ensures Flat(space) == Outside(old(Flat(space)), va / PAGE, PageCount(size))
      ensures old(AllOpen(space)) ==> AllOpen(space)
    {
      ghost var s0 := space;
      space := PageUnmap(space, va, size);
      UnmapRefines(s0, space, va / PAGE, PageCount(size));
      if AllOpen(s0) {
        StaysOpen(s0, space);
      }
    }
  }
}

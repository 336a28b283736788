/** mm/page_table.c: the two-level table as a flat map from page numbers to frames. */
module PageTable {
  import opened Distinct
  import opened Log2
  import opened PageWords

  /** The directory entry that maps the directory itself. */
  const SELF: nat := 1003

  /** The directory, the tables by physical address, and the pages that `alloc_page` will give. */
  datatype Space = Space(dir: seq<nat>, tables: map<nat, seq<nat>>, pool: seq<nat>)

  predicate TableBase(s: Space, b: nat) { b in s.tables ==> b < WORD && b % PAGE == 0 && |s.tables[b]| == ENTRIES }

  predicate DirOk(s: Space, i: nat) {
    i < |s.dir| && i != SELF && Present(s.dir[i]) ==> PageBase(s.dir[i]) in s.tables
  }

  predicate Apart(s: Space, i: nat, j: nat) {
    i < j < |s.dir| && i != SELF && j != SELF && Present(s.dir[i]) && Present(s.dir[j]) ==>
      PageBase(s.dir[i]) != PageBase(s.dir[j])
  }

  predicate PoolPage(s: Space, b: nat) { b in s.pool ==> b < WORD && b % PAGE == 0 && b !in s.tables }

  /** Directory entries not present, from `i` on. */
  function Missing(dir: seq<nat>, i: nat): nat
    requires i <= |dir|
    decreases |dir| - i
  {
    if i == |dir| then 0 else (if Present(dir[i]) then 0 else 1) + Missing(dir, i + 1)
  }

  /** Every present entry has a table of its own; the pool holds fresh pages, enough for every
      entry not present. */
  ghost predicate SpaceOk(s: Space) {
    && |s.dir| == ENTRIES
    && (forall b :: TableBase(s, b))
    && (forall i :: DirOk(s, i))
    && (forall i, j :: Apart(s, i, j))
    && (forall b :: PoolPage(s, b)) && NoDup(s.pool)
    && |s.pool| >= Missing(s.dir, 0)
  }

  /** Page numbers that the tables decide. */
  predicate Mappable(p: nat) { p < PAGES && p / ENTRIES != SELF }

  /** The table entry of page `p`. */
  function Entry(s: Space, p: nat): nat {
    var i, j := p / ENTRIES, p % ENTRIES;
    if i < |s.dir| && Present(s.dir[i]) && PageBase(s.dir[i]) in s.tables && j < |s.tables[PageBase(s.dir[i])]|
    then s.tables[PageBase(s.dir[i])][j] else 0
  }

  // ---------------------------------------------------------------- get_pte

  lemma {:induction false} MissingSet(dir: seq<nat>, i: nat, k: nat, w: nat)
    requires i <= k < |dir| && !Present(dir[k]) && Present(w)
    ensures Missing(dir, i) == Missing(dir[k := w], i) + 1
    decreases k - i
  {
    if i == k {
      MissingAfter(dir, k + 1, k, w);
    } else {
      MissingSet(dir, i + 1, k, w);
    }
  }

  lemma {:induction false} MissingAfter(dir: seq<nat>, i: nat, k: nat, w: nat)
    requires k < i <= |dir|
    ensures Missing(dir, i) == Missing(dir[k := w], i)
    decreases |dir| - i
  {
    if i < |dir| {
      MissingAfter(dir, i + 1, k, w);
    }
  }

  /** A new, zeroed table in place of an entry not present. */
  function WithTable(s: Space, i: nat): Space
    requires i < |s.dir| && s.pool != []
  {
    Space(s.dir[i := MakeEntry(s.pool[0], 3)], s.tables[s.pool[0] := seq(ENTRIES, _ => 0)], s.pool[1..])
  }

  lemma TableAdded(s: Space, i: nat)
    requires SpaceOk(s) && i < ENTRIES && i != SELF && !Present(s.dir[i])
    ensures s.pool != [] && SpaceOk(WithTable(s, i)) && PageBase(WithTable(s, i).dir[i]) == s.pool[0] && Present(WithTable(s, i).dir[i])
    ensures WithTable(s, i).dir == s.dir[i := s.pool[0] + PTE_P + PTE_W]
  {
    MissingSet(s.dir, 0, i, 1);
    assert PoolPage(s, s.pool[0]);
    var s', b := WithTable(s, i), s.pool[0];
    EntryReads(b, 3);
    EntryIs(b, 3);
    MissingSet(s.dir, 0, i, MakeEntry(b, 3));
    forall x ensures TableBase(s', x) {
      assert TableBase(s, x);
    }
    forall k ensures DirOk(s', k) {
      assert DirOk(s, k);
    }
    forall j, k ensures Apart(s', j, k) {
      assert Apart(s, j, k) && DirOk(s, j) && DirOk(s, k);
    }
    forall x ensures PoolPage(s', x) {
      assert PoolPage(s, x);
    }
  }

  /** A zeroed table says what no table said. */
  lemma AddedEntries(s: Space, i: nat, p: nat)
    requires SpaceOk(s) && i < ENTRIES && i != SELF && !Present(s.dir[i]) && Mappable(p)
    ensures s.pool != [] && Entry(WithTable(s, i), p) == Entry(s, p)
  {
    TableAdded(s, i);
    assert DirOk(s, p / ENTRIES) && PoolPage(s, s.pool[0]);
  }

  /** Directory entries that were present are as they were; one that has been added is the address
      of a page and the two flags. */
  ghost predicate DirGrown(s0: Space, s: Space) {
    |s.dir| == |s0.dir| && forall i :: 0 <= i < |s0.dir| ==> EntryGrown(s0.dir[i], s.dir[i])
  }

  predicate EntryGrown(w0: nat, w: nat) { w == w0 || (!Present(w0) && w % PAGE == PTE_P + PTE_W) }

  lemma DirAdded(s: Space, i: nat)
    requires SpaceOk(s) && i < ENTRIES && i != SELF && !Present(s.dir[i])
    ensures s.pool != [] && DirGrown(s, WithTable(s, i))
  {
    TableAdded(s, i);
    assert PoolPage(s, s.pool[0]);
    FlagsOf(s.pool[0]);
    OneGrown(s.dir, i, s.pool[0] + PTE_P + PTE_W);
  }

  lemma FlagsOf(b: nat)
    requires b % PAGE == 0
    ensures (b + PTE_P + PTE_W) % PAGE == PTE_P + PTE_W
  {}

  lemma OneGrown(dir: seq<nat>, i: nat, w: nat)
    requires i < |dir| && EntryGrown(dir[i], w)
    ensures forall k :: 0 <= k < |dir| ==> EntryGrown(dir[k], dir[i := w][k])
  {}

  lemma GrownTwice(s0: Space, s1: Space, s2: Space)
    requires DirGrown(s0, s1) && DirGrown(s1, s2)
    ensures DirGrown(s0, s2)
  {
    PresentFlags();
    forall i | 0 <= i < |s0.dir| ensures EntryGrown(s0.dir[i], s2.dir[i]) {
      assert EntryGrown(s0.dir[i], s1.dir[i]) && EntryGrown(s1.dir[i], s2.dir[i]);
      PresentIs(s1.dir[i]);
    }
  }

  lemma PresentFlags()
    ensures forall w: nat :: w % PAGE == PTE_P + PTE_W ==> w % 2 == 1
  {}

  /** `get_pte`: the address of the entry for `va`, as its table and index.  No translation
      changes; a directory entry that is missing becomes the address of a fresh page plus the
      present and write flags, and no other entry changes. */
  method GetPte(s0: Space, va: nat) returns (s: Space, base: nat, index: nat)
    requires SpaceOk(s0) && va < WORD && Mappable(va / PAGE)
    ensures SpaceOk(s) && Present(s.dir[va / PAGE / ENTRIES]) && base == PageBase(s.dir[va / PAGE / ENTRIES]) && index == va / PAGE % ENTRIES
    ensures forall p :: Mappable(p) ==> Entry(s, p) == Entry(s0, p)
    ensures var i := va / PAGE / ENTRIES;
      if Present(s0.dir[i]) then s == s0
      else s0.pool != [] && s.dir == s0.dir[i := s0.pool[0] + PTE_P + PTE_W] && s.pool == s0.pool[1..]
    ensures DirGrown(s0, s)
  {
    Indices(va);
    s := s0;
    var i := PdeIndex(va);
    if !Present(s.dir[i]) {
      TableAdded(s, i);
      DirAdded(s, i);
      forall p | Mappable(p) ensures Entry(WithTable(s, i), p) == Entry(s, p) {
        AddedEntries(s, i, p);
      }
      var page := s.pool[0];
      s := Space(s.dir[i := MakeEntry(page, 3)], s.tables[page := seq(ENTRIES, _ => 0)], s.pool[1..]);
      assert s == WithTable(s0, i);
    }
    base := PageBase(s.dir[i]);
    index := PteIndex(va);
  }

  // ---------------------------------------------------------------- writing an entry

  function SetAt(t: seq<nat>, j: nat, w: nat): seq<nat>
    requires j < |t|
  {
    t[j := w]
  }

  function Written(s: Space, p: nat, w: nat): Space
    requires SpaceOk(s) && Mappable(p) && Present(s.dir[p / ENTRIES])
  {
    assert DirOk(s, p / ENTRIES) && TableBase(s, PageBase(s.dir[p / ENTRIES]));
    var b := PageBase(s.dir[p / ENTRIES]);
    s.(tables := s.tables[b := SetAt(s.tables[b], p % ENTRIES, w)])
  }

  lemma WrittenOk(s: Space, p: nat, w: nat)
    requires SpaceOk(s) && Mappable(p) && Present(s.dir[p / ENTRIES])
    ensures SpaceOk(Written(s, p, w))
  {
    var s' := Written(s, p, w);
    assert DirOk(s, p / ENTRIES);
    forall x ensures TableBase(s', x) {
      assert TableBase(s, x);
    }
    forall k ensures DirOk(s', k) {
      assert DirOk(s, k);
    }
    forall j, k ensures Apart(s', j, k) {
      assert Apart(s, j, k);
    }
    forall x ensures PoolPage(s', x) {
      assert PoolPage(s, x);
    }
  }

  /** Tables are not shared, so a write shows at one page only. */
  lemma WrittenEntry(s: Space, p: nat, w: nat, q: nat)
    requires SpaceOk(s) && Mappable(p) && Present(s.dir[p / ENTRIES]) && Mappable(q)
    ensures Entry(Written(s, p, w), q) == if q == p then w else Entry(s, q)
  {
    var i, j := p / ENTRIES, q / ENTRIES;
    assert DirOk(s, i) && DirOk(s, j) && Apart(s, i, j) && Apart(s, j, i) && TableBase(s, PageBase(s.dir[i]));
  }
}

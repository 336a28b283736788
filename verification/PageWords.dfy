/** The words of 32-bit paging, as include/memory.h and mm/page_table.c take them apart. */
module PageWords {
  import opened Bits
  import opened Log2

  const PAGE: nat := 0x1000
  const ENTRIES: nat := 0x400
  const PAGES: nat := 0x10_0000

  /** `pde_index` */
  function PdeIndex(va: nat): nat { And(Shr(va, 22), 0x3ff) }

  /** `pte_index` */
  function PteIndex(va: nat): nat { And(Shr(va, 12), 0x3ff) }

  /** `page_base` on a 32-bit word. */
  function PageBase(x: nat): nat { And(x, 0xffff_f000) }

  /** The test of `PTE_P`. */
  predicate Present(w: nat) { And(w, 1) != 0 }

  const PTE_P: nat := 1
  const PTE_W: nat := 2

  /** The test of the write flag. */
  predicate Writes(w: nat) { w / PTE_W % 2 == 1 }

  /** `pa | flag | PTE_P` */
  function MakeEntry(pa: nat, flag: nat): nat { Or(Or(pa, flag), 1) }

  /** The flags that an entry ends up with. */
  function FlagBits(flag: nat): nat { if flag % 2 == 1 then flag else flag + 1 }

  /** The two indices are the digits of the page number. */
  lemma Indices(va: nat)
    requires va < WORD
    ensures PdeIndex(va) == va / PAGE / ENTRIES < ENTRIES && PteIndex(va) == va / PAGE % ENTRIES
  {
    Powers();
    ShrIsDiv(va, 12);
    ShrShr(va, 12, 10);
    ShrIsDiv(Shr(va, 12), 10);
    AndLow(Shr(va, 22), 10);
    AndLow(Shr(va, 12), 10);
    LowIsMod(Shr(va, 12), 10);
    LowOfSmall(Shr(va, 22), 10);
  }

  lemma BaseIs(x: nat)
    requires x < WORD
    ensures PageBase(x) == x - x % PAGE
  {
    Powers();
    var hi := Shr(x, 12);
    ShlMul(0xf_ffff, 12);
    AndShl(x, 0xf_ffff, 12);
    AndLow(hi, 20);
    ShrBound(x, 20, 12);
    LowOfSmall(hi, 20);
    SplitBits(x, 12);
    LowIsMod(x, 12);
  }

  lemma PresentIs(w: nat)
    ensures Present(w) <==> w % 2 == 1
  {
    AndZero(w / 2);
  }

  /** An aligned address and twelve flag bits do not disturb each other. */
  lemma EntryIs(pa: nat, flag: nat)
    requires pa < WORD && pa % PAGE == 0 && flag < PAGE
    ensures MakeEntry(pa, flag) == pa + FlagBits(flag) < WORD
  {
    Joined(pa, flag);
    OrOne(pa + flag);
    Even(pa, pa / PAGE, flag);
  }

  lemma Even(pa: nat, k: nat, flag: nat)
    requires pa == PAGE * k && pa < WORD && flag < PAGE
    ensures FlagBits(pa + flag) == pa + FlagBits(flag) < WORD
  {
    assert pa == 2 * (2048 * k) && pa <= WORD - PAGE;
  }

  lemma Joined(pa: nat, flag: nat)
    requires pa % PAGE == 0 && flag < PAGE
    ensures Or(pa, flag) == pa + flag
  {
    Powers();
    LowIsMod(pa, 12);
    OrDisjoint(pa, flag, 12);
  }

  lemma OrOne(x: nat)
    ensures Or(x, 1) == FlagBits(x)
  {
    OrZero(x / 2);
  }

  /** So both can be read back, and the entry is present. */
  lemma EntryReads(pa: nat, flag: nat)
    requires pa < WORD && pa % PAGE == 0 && flag < PAGE
    ensures var w := MakeEntry(pa, flag);
      PageBase(w) == pa && w / PAGE == pa / PAGE && w % PAGE == FlagBits(flag) && Present(w) && w < WORD
  {
    EntryIs(pa, flag);
    BaseIs(MakeEntry(pa, flag));
    PresentIs(MakeEntry(pa, flag));
  }
}

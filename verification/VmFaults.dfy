/** Runs of mm/vmalloc.c that end badly. */
module VmFaults {
  import opened Bits
  import opened Log2
  import opened List
  import opened RbShape
  import opened VmAreas
  import opened VmLists
  import opened Vmalloc
  import opened VmStale

  /** The first area handed out, once freed, takes the whole remainder with it: the list of
      areas is back to one free area, but no free list has it, so nothing can be allocated. */
  method FirstCycle(first: nat, len: nat, buddy: nat, node: Ref) returns (st: VmState, ghost w: Meaning)
    requires first != NULL && buddy != NULL && buddy != first && node != NULL
    requires 0 < len < VMALLOC_END - VMALLOC_START && len % PAGE == 0 && Ilog2Roundup(len / PAGE) <= 19
    ensures StateOk(st, w) && st.vmas == InitState(first).vmas
    ensures forall len', buddy' :: !Takes(st.vmas, w.cur, w.at, len', buddy')
  {
    CycleAreas(first, len, buddy);
    var halted;
    st, w := FirstAlloc(first, len, buddy, node);
    halted, st, w := FreeVma(st, first, w);
  }

  method FirstAlloc(first: nat, len: nat, buddy: nat, node: Ref) returns (st: VmState, ghost w: Meaning)
    requires first != NULL && buddy != NULL && buddy != first && node != NULL
    requires 0 < len < VMALLOC_END - VMALLOC_START && len % PAGE == 0 && Ilog2Roundup(len / PAGE) <= 19
    ensures StateOk(st, w) && st.vmas == AllocTail(InitState(first).vmas, len, buddy) && w.cur == buddy && st.mem.Keys <= {node}
  {
    InitialState(first);
    CycleAreas(first, len, buddy);
    var r;
    r, st, w := AllocVma(InitState(first), len, buddy, node, Meaning(first, 19, Leaf));
  }

  lemma CycleAreas(first: nat, len: nat, buddy: nat)
    requires first != NULL && buddy != first && 0 < len < VMALLOC_END - VMALLOC_START && len % PAGE == 0
    ensures var whole := Area(first, VMALLOC_START, VMALLOC_END, true);
      var s := AllocTail([whole], len, buddy);
      && Length(whole) >= len + PAGE && Ids([whole]) == {first} && buddy !in Ids([whole])
      && Usable(InitState(first).links, [whole], len, buddy)
      && |s| == 2 && IndexOf(s, first) == 0 && first in Ids(s) && !s[0].free && s[1].free
      && s[0].start == VMALLOC_START && s[0].end < VMALLOC_END && Freed(s[..0], s[0], s[1..]) == [whole]
  {
    var whole := Area(first, VMALLOC_START, VMALLOC_END, true);
    var s := AllocTail([whole], len, buddy);
    assert [whole][..0] == [] && [whole][1..] == [];
    assert s == [Area(first, VMALLOC_START, VMALLOC_START + len, false), Area(buddy, VMALLOC_START + len, VMALLOC_END, true)];
    assert s[..0] == [] && s[1..] == [s[1]] && s[1..][1..] == [];
  }

  /** A request for nothing leaves an empty area behind. */
  method ZeroLength(first: nat, buddy: nat, node: Ref) returns (st: VmState)
    requires first != NULL && buddy != NULL && buddy != first
    ensures !AreasOk(st.vmas)
  {
    InitialState(first);
    var r;
    ghost var w, s := Meaning(first, 19, Leaf), InitState(first).vmas;
    assert Ids(s) == {first};
    TailLive(s, first, 19, 0, buddy, {});
    r, st, w := AllocVma(InitState(first), 0, buddy, node, w);
  }

  // ---------------------------------------------------------------- an area that cannot be freed

  const HEAD_PAGES: nat := 262143
  const TAIL_PAGES: nat := 524288

  /** Requests of up to half the address space look on list 19 or below. */
  lemma LowRequest(pages: nat)
    requires pages <= 524288
    ensures Ilog2Roundup(pages) <= 19
  {
    Powers();
    RoundupSmallest(pages, 19);
  }

  lemma HighOrder(pages: nat)
    requires 524288 <= pages < 1048576
    ensures Ilog2(pages) == 19
  {
    Powers();
    FlsUnique(pages, 20);
  }

  lemma Multiple(pages: nat)
    ensures pages * PAGE % PAGE == 0
  {}

  /** Two requests that fill the range: the second area ends it, so that freeing it stops the
      kernel. */
  method FullRange(first: nat, second: nat, node1: Ref, node2: Ref) returns (halted: bool, st: VmState, ghost w: Meaning)
    requires first != NULL && second != NULL && first != second && node1 != NULL && node2 != NULL && node1 != node2
    ensures StateOk(st, w) && second in Ids(st.vmas) && !st.vmas[IndexOf(st.vmas, second)].free
    ensures halted
  {
    st, w := HalfRange(first, second, node1);
    FullAreas(st.vmas, first, second);
    FullTakes(st.vmas, first, second, w.at);
    Multiple(TAIL_PAGES);
    var r;
    r, st, w := AllocVma(st, TAIL_PAGES * PAGE, NULL, node2, w);
    assert IndexOf(st.vmas, second) == 1 && !st.vmas[1].free && second in Ids(st.vmas);
    halted, st, w := FreeVma(st, second, w);
  }

  method HalfRange(first: nat, second: nat, node: Ref) returns (st: VmState, ghost w: Meaning)
    requires first != NULL && second != NULL && first != second && node != NULL
    ensures StateOk(st, w) && w.cur == second && st.mem.Keys <= {node}
    ensures st.vmas == [Area(first, VMALLOC_START, 0x4000_0000, false), Area(second, 0x4000_0000, VMALLOC_END, true)]
  {
    LowRequest(HEAD_PAGES * PAGE / PAGE);
    st, w := FirstAlloc(first, HEAD_PAGES * PAGE, second, node);
    assert InitState(first).vmas[..0] == [];
  }

  lemma FullTakes(s: seq<Area>, first: nat, second: nat, at: nat)
    requires first != NULL && second != NULL && first != second && TailIs(s, second, at)
    requires s == [Area(first, VMALLOC_START, 0x4000_0000, false), Area(second, 0x4000_0000, VMALLOC_END, true)]
    ensures Takes(s, second, at, TAIL_PAGES * PAGE, NULL)
  {
    FullAreas(s, first, second);
    HighOrder(Length(Last(s)) / PAGE);
    LowRequest(TAIL_PAGES * PAGE / PAGE);
  }

  lemma FullAreas(s: seq<Area>, first: nat, second: nat)
    requires first != NULL && second != NULL && first != second
    requires s == [Area(first, VMALLOC_START, 0x4000_0000, false), Area(second, 0x4000_0000, VMALLOC_END, true)]
    ensures Length(Last(s)) == TAIL_PAGES * PAGE && !Splits(s, TAIL_PAGES * PAGE) && NULL !in Ids(s)
    ensures var r := AllocTail(s, TAIL_PAGES * PAGE, NULL); |r| == 2 && r[1] == s[1].(free := false) && IndexOf(r, second) == 1
  {
    assert s[1..] == [s[1]] && s[1..][1..] == [];
    assert Ids(s[1..]) == {second};
    var r := AllocTail(s, TAIL_PAGES * PAGE, NULL);
    assert r == [s[0], s[1].(free := false)];
    assert r[1..] == [r[1]];
  }

  // ---------------------------------------------------------------- a record used again

  /** Page `k` of the range. */
  function PageAt(k: nat): nat { VMALLOC_START + k * PAGE }

  /** Areas 1 to `n`, a page each and live, and the free remainder `n + 1`. */
  function Paged(n: nat): seq<Area> { Pages(n) + [Area(n + 1, PageAt(n), VMALLOC_END, true)] }

  function Pages(n: nat): (s: seq<Area>)
    ensures |s| == n
  {
    if n == 0 then [] else Pages(n - 1) + [Area(n, PageAt(n - 1), PageAt(n), false)]
  }

  /** The records so far, each split off the one before on list 19. */
  ghost predicate Chained(links: Links<LNode>, n: nat) {
    && Head(18) in links && links[Head(18)] == Link(Head(18), Head(18))
    && Head(19) in links && links[Head(19)].next == Of(n)
    && (forall k: nat :: 1 <= k <= n ==> Of(k) in links)
    && (forall k: nat :: 1 <= k < n ==> links[Of(k)] == Link(Of(k + 1), Head(19)))
    && n >= 1 && links[Of(n)] == Link(Head(19), Head(19))
  }

  lemma ChainGrows(links0: Links<LNode>, links: Links<LNode>, n: nat)
    requires Chained(links0, n) && Handed(links0, links, n, n + 1, 19)
    ensures Chained(links, n + 1)
  {}

  lemma {:induction false} PagesIds(n: nat, x: nat)
    ensures x in Ids(Pages(n)) <==> 1 <= x <= n
  {
    if n > 0 {
      PagesIds(n - 1, x);
      IdsJoin(Pages(n - 1), [Pages(n)[n - 1]]);
    }
  }

  lemma PagedFacts(n: nat)
    requires n < 1000
    ensures Length(Last(Paged(n))) / PAGE == 786431 - n && Splits(Paged(n), PAGE) && AllocTail(Paged(n), PAGE, n + 2) == Paged(n + 1)
    ensures forall x :: x in Ids(Paged(n)) <==> 1 <= x <= n + 1
  {
    var s := Paged(n);
    assert s[..|s| - 1] == Pages(n);
    forall x: nat ensures x in Ids(s) <==> 1 <= x <= n + 1 {
      PagesIds(n, x);
      IdsJoin(Pages(n), [s[n]]);
    }
    var a := [Area(n + 1, PageAt(n), PageAt(n + 1), false)];
    assert AllocTail(s, PAGE, n + 2) == Pages(n) + a + ([Area(n + 2, PageAt(n + 1), VMALLOC_END, true)] + []);
  }

  lemma PagedOrder(n: nat)
    requires n < 1000
    ensures OrderOf(Last(Paged(n))) == 19 && OrderOf(Rest(Paged(n), PAGE, n + 2)) == 19
  {
    PagedFacts(n);
    HighOrder(786431 - n);
    HighOrder(786430 - n);
  }

  lemma OnePage()
    ensures Ilog2Roundup(PAGE / PAGE) == 0
  {
    assert Fls(0) == 0;
  }

  /** One more page can be had. */
  lemma PageStep(s: seq<Area>, links: Links<LNode>, at: nat, n: nat)
    requires s == Paged(n) && n < 1000 && TailIs(s, n + 1, at) && Chained(links, n + 1)
    ensures Takes(s, n + 1, at, PAGE, n + 2) && Usable(links, s, PAGE, n + 2) && n + 2 !in Ids(s)
    ensures Splits(s, PAGE) && OrderOf(Rest(s, PAGE, n + 2)) == 19 && AllocTail(s, PAGE, n + 2) == Paged(n + 1)
  {
    PagedFacts(n);
    PagedOrder(n);
    OnePage();
    forall x | x in Ids(s) ensures Of(x) in links && links[Of(x)].prev != Of(n + 2) {
      assert x == n + 1 || links[Of(x)] == Link(Of(x + 1), Head(19));
    }
  }

  /** Requests for a page each: records 1 to `n` are live, record `n + 1` is the remainder. */
  method PageRun(n: nat) returns (st: VmState, ghost w: Meaning)
    requires n < 1000
    ensures StateOk(st, w) && st.vmas == Paged(n) && Chained(st.links, n + 1) && w.cur == n + 1
    ensures forall x :: x in st.mem ==> x <= n
  {
    st, w := PageStart();
    var k := 0;
    while k < n
      invariant k <= n && StateOk(st, w) && st.vmas == Paged(k) && Chained(st.links, k + 1) && w.cur == k + 1
      invariant forall x :: x in st.mem ==> x <= k
    {
      st, w := OneMore(st, k, w);
      k := k + 1;
    }
  }

  method PageStart() returns (st: VmState, ghost w: Meaning)
    ensures StateOk(st, w) && st.vmas == Paged(0) && Chained(st.links, 1) && w.cur == 1 && st.mem == map[]
  {
    InitialState(1);
    st, w := InitState(1), Meaning(1, 19, Leaf);
  }

  method OneMore(st0: VmState, k: nat, ghost w0: Meaning) returns (st: VmState, ghost w: Meaning)
    requires k < 999 && StateOk(st0, w0) && st0.vmas == Paged(k) && Chained(st0.links, k + 1) && w0.cur == k + 1
    requires forall x :: x in st0.mem ==> x <= k
    ensures StateOk(st, w) && st.vmas == Paged(k + 1) && Chained(st.links, k + 2) && w.cur == k + 2
    ensures forall x :: x in st.mem ==> x <= k + 1
  {
    var r;
    PageStep(st0.vmas, st0.links, w0.at, k);
    r, st, w := AllocVma(st0, PAGE, k + 2, k + 1, w0);
    ChainGrows(st0.links, st.links, k + 1);
  }

  /** Areas after three requests, after freeing area 2, and after freeing area 1, which swallows
      it. */
  function Three(): seq<Area> {
    [Area(1, PageAt(0), PageAt(1), false), Area(2, PageAt(1), PageAt(2), false), Area(3, PageAt(2), PageAt(3), false),
     Area(4, PageAt(3), VMALLOC_END, true)]
  }

  function Swallowed(): seq<Area> {
    [Area(1, PageAt(0), PageAt(2), true), Area(3, PageAt(2), PageAt(3), false), Area(4, PageAt(3), VMALLOC_END, true)]
  }

  lemma ThreeFacts()
    ensures var s := Three();
      && s == Paged(3) && 2 in Ids(s) && IndexOf(s, 2) == 1
      && Freed(s[..1], s[1], s[2..]) == s[1 := s[1].(free := true)] && !LastFree(s[..1], false) && !s[2..][0].free
    ensures var s := Three()[1 := Three()[1].(free := true)];
      && 1 in Ids(s) && IndexOf(s, 1) == 0 && Freed(s[..0], s[0], s[1..]) == Swallowed() && s[1..][0] == s[1]
    ensures Ids(Swallowed()) == {1, 3, 4}
  {
    var s := Three();
    assert Pages(1) == [s[0]] && Pages(2) == [s[0], s[1]] && Pages(3) == [s[0], s[1], s[2]];
    var s1 := s[1 := s[1].(free := true)];
    assert s[..1] == [s[0]] && s[2..] == [s[2], s[3]];
    assert s1[..0] == [] && s1[1..][1..] == [s1[2], s1[3]];
    var z := Swallowed();
    assert z[1..] == [z[1], z[2]] && z[1..][1..] == [z[2]] && z[1..][1..][1..] == [];
    assert Ids(z[1..][1..]) == {4} && Ids(z[1..]) == {3, 4};
  }

  const LARGE: nat := 400000 * PAGE

  lemma LargeFits(s: seq<Area>)
    requires s == Swallowed()
    ensures Splits(s, LARGE) && OrderOf(Last(s)) == 19 && OrderOf(Rest(s, LARGE, 2)) == 18
  {
    HighOrder(Length(Last(s)) / PAGE);
    LowerOrder(Length(Rest(s, LARGE, 2)) / PAGE);
  }

  lemma LowerOrder(pages: nat)
    requires 262144 <= pages < 524288
    ensures Ilog2(pages) == 18
  {
    Powers();
    assert Pow2(19) == 2 * Pow2(18);
    FlsUnique(pages, 19);
  }

  /** What three requests and two frees leave: record 1 still points at record 2, which is free
      memory. */
  ghost predicate Dangling(links: Links<LNode>) {
    && Head(18) in links && links[Head(18)] == Link(Head(18), Head(18))
    && Head(19) in links && links[Head(19)].next == Of(4)
    && Of(1) in links && links[Of(1)] == Link(Of(2), Head(19))
    && Of(4) in links && links[Of(4)] == Link(Head(19), Head(19))
  }

  method FreeSecond(st0: VmState, ghost w0: Meaning) returns (st: VmState, ghost w: Meaning)
    requires StateOk(st0, w0) && st0.vmas == Three() && w0.cur == 4
    ensures StateOk(st, w) && st.vmas == Three()[1 := Three()[1].(free := true)] && st.links == st0.links && w.cur == 4
    ensures st.mem.Keys <= st0.mem.Keys
  {
    ThreeFacts();
    var halted;
    halted, st, w := FreeVma(st0, 2, w0);
  }

  method FreeFirst(st0: VmState, ghost w0: Meaning) returns (st: VmState, ghost w: Meaning)
    requires StateOk(st0, w0) && st0.vmas == Three()[1 := Three()[1].(free := true)] && w0.cur == 4
    ensures StateOk(st, w) && st.vmas == Swallowed() && Dropped(st0.links, st.links, 2) && w.cur == 4
    ensures st.mem.Keys <= st0.mem.Keys
  {
    ThreeFacts();
    var halted;
    halted, st, w := FreeVma(st0, 1, w0);
  }

  method Dangle() returns (st: VmState, ghost w: Meaning)
    ensures StateOk(st, w) && st.vmas == Swallowed() && Dangling(st.links) && w.cur == 4
    ensures 4 !in st.mem
  {
    ThreeFacts();
    st, w := PageRun(3);
    st, w := FreeSecond(st, w);
    ghost var links := st.links;
    st, w := FreeFirst(st, w);
    Dangles(links, st.links);
  }

  lemma Dangles(links0: Links<LNode>, links: Links<LNode>)
    requires Chained(links0, 4) && Dropped(links0, links, 2)
    ensures Dangling(links)
  {
    assert links0[Of(1)] == Link(Of(1 + 1), Head(19)) && links0[Of(2)] == Link(Of(2 + 1), Head(19));
  }

  /** The next request can be met, and its remainder goes on list 18. */
  lemma LargeTakes(s: seq<Area>, at: nat)
    requires s == Swallowed() && TailIs(s, 4, at)
    ensures Takes(s, 4, at, LARGE, 2) && 2 !in Ids(s) && 1 in Ids(s) && Splits(s, LARGE) && OrderOf(Rest(s, LARGE, 2)) == 18
  {
    ThreeFacts();
    LargeFits(s);
    LowRequest(LARGE / PAGE);
  }

  method StrikeLarge(st0: VmState, ghost w0: Meaning) returns (st: VmState, ghost w: Meaning)
    requires StateOk(st0, w0) && st0.vmas == Swallowed() && Dangling(st0.links) && w0.cur == 4 && 4 !in st0.mem
    ensures Mapped(st, w) && RunsInto(st.links, 18, 19) && forall w' :: !Agrees(st, w')
  {
    LargeTakes(st0.vmas, w0.at);
    Multiple(400000);
    assert st0.links[Of(1)] == Link(Of(2), Head(19));
    st, w := StaleStrikes(st0, LARGE, 2, 4, 1, w0);
  }

  /** Record 2 is used again for a remainder that goes on list 18, while area 1 still points at it
      and at list 19.  Area 3 is freed next and swallows area 1: list 18 runs into the head of
      list 19, and no reading of the free lists agrees with the areas any more. */
  method ReusedRecord() returns (st: VmState, ghost w: Meaning)
    ensures Mapped(st, w) && RunsInto(st.links, 18, 19) && forall w' :: !Agrees(st, w')
  {
    st, w := Dangle();
    st, w := StrikeLarge(st, w);
  }
}

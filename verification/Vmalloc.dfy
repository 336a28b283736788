/** mm/vmalloc.c: the allocator of virtual areas and its three views of one address range,
    the list of areas, the free lists and the red-black tree of live areas. */
module Vmalloc {
  import opened Bits
  import opened Log2
  import opened List
  import opened RbShape
  import opened RbSpec
  import opened RbLinks
  import opened RbTree
  import opened VmAreas
  import opened VmLists

  /** Position of the area at address `id`. */
  function IndexOf(s: seq<Area>, id: nat): (k: nat)
    ensures k <= |s| && (k < |s| ==> s[k].id == id)
    ensures k < |s| <==> id in Ids(s)
  {
    if s == [] || s[0].id == id then 0 else 1 + IndexOf(s[1..], id)
  }

  /** The order of the list that a free area of this length belongs on. */
  function OrderOf(a: Area): nat {
    if Length(a) < PAGE then 0 else Ilog2(Length(a) / PAGE)
  }

  ghost predicate TailIs(s: seq<Area>, cur: nat, at: nat) {
    cur != NULL ==> s != [] && var t := s[|s| - 1]; t.id == cur && t.free && at == OrderOf(t)
  }

  /** The loop over the lists: the first list at or above `order` that holds something. */
  method FirstList(links: Links<LNode>, order: nat, ghost ids: set<nat>, ghost cur: nat, ghost at: nat) returns (i: nat)
    requires HeadsOk(links, ids, cur, at)
    ensures i <= MAX_VMA_ORDER <==> cur != NULL && order <= at
    ensures i <= MAX_VMA_ORDER ==> i == at
  {
    i := order;
    while i <= MAX_VMA_ORDER
      invariant order <= i && (cur != NULL && order <= at ==> i <= at)
      decreases MAX_VMA_ORDER + 1 - i
    {
      if links[Head(i)].next != Head(i) {
        return;
      }
      i := i + 1;
    }
  }

  /** An allocation leaves a remainder of a page or more, this one. */
  predicate Splits(s: seq<Area>, len: nat) { Length(Last(s)) >= len + PAGE }

  function Rest(s: seq<Area>, len: nat, buddy: nat): Area { Area(buddy, Last(s).start + len, Last(s).end, true) }

  /** The record `buddy` for the remainder, if there is one, can be used: it is new, or the stale
      links to it are those of the list the remainder goes on. */
  predicate Usable(links: Links<LNode>, s: seq<Area>, len: nat, buddy: nat) {
    Splits(s, len) ==> Clean(links, Ids(s), buddy, OrderOf(Rest(s, len, buddy)))
  }

  /** What an allocation does to the links. */
  ghost predicate Relinked(links0: Links<LNode>, links: Links<LNode>, s: seq<Area>, cur: nat, len: nat, buddy: nat) {
    if Splits(s, len) then Handed(links0, links, cur, buddy, OrderOf(Rest(s, len, buddy))) else Dropped(links0, links, cur)
  }

  /** The remainder on to its list, the area off its own. */
  method HandOn(links0: Links<LNode>, id: nat, buddy: nat, order: nat, ghost ids: set<nat>, ghost at: nat)
    returns (links: Links<LNode>)
    requires HeadsOk(links0, ids, id, at) && Wired(links0, ids) && id != NULL && NULL !in ids
    requires buddy != NULL && buddy !in ids && order <= at
    ensures Handed(links0, links, id, buddy, order)
    ensures HeadsOk(links, ids + {buddy}, buddy, order) && Wired(links, ids + {buddy})
    ensures ListsOk(links0, ids, id, at) ==>
      if Clean(links0, ids, buddy, order) then ListsOk(links, ids + {buddy}, buddy, order)
      else forall c, a :: !ListsOk(links, ids + {buddy}, c, a)
  {
    Handover(links0, ids, id, at, buddy, order);
    links := Linked(links0, Head(order), Of(buddy));
    links := Unlinked(links, Of(id));
    if ListsOk(links0, ids, id, at) {
      HandoverStale(links0, links, ids, id, at, buddy, order);
    }
  }

  method TakeOff(links0: Links<LNode>, id: nat, ghost ids: set<nat>, ghost at: nat) returns (links: Links<LNode>)
    requires HeadsOk(links0, ids, id, at) && Wired(links0, ids) && id != NULL
    ensures Dropped(links0, links, id) && HeadsOk(links, ids, NULL, at) && Wired(links, ids)
    ensures ListsOk(links0, ids, id, at) ==> ListsOk(links, ids, NULL, at)
  {
    CurUnlinked(links0, ids, id, at);
    UnlinkedWired(links0, ids, id);
    links := Unlinked(links0, Of(id));
  }

  /** The part of `alloc_vma` that works on the list of areas and the free lists. */
  method TakeTail(vmas0: seq<Area>, links0: Links<LNode>, len: nat, buddy: nat, ghost cur0: nat, ghost at0: nat)
    returns (r: nat, vmas: seq<Area>, links: Links<LNode>, ghost cur: nat, ghost at: nat)
    requires AreasOk(vmas0) && HeadsOk(links0, Ids(vmas0), cur0, at0) && Wired(links0, Ids(vmas0)) && TailIs(vmas0, cur0, at0)
    requires len % PAGE == 0 && buddy !in Ids(vmas0)
    ensures r != NULL <==> Takes(vmas0, cur0, at0, len, buddy)
    ensures r == NULL ==> vmas == vmas0 && links == links0 && cur == cur0 && at == at0
    ensures r != NULL ==> r == cur0 && vmas == AllocTail(vmas0, len, buddy) && Relinked(links0, links, vmas0, cur0, len, buddy)
    ensures r != NULL ==> cur == if Splits(vmas0, len) then buddy else NULL
    ensures HeadsOk(links, Ids(vmas), cur, at) && Wired(links, Ids(vmas)) && TailIs(vmas, cur, at)
    ensures r != NULL && ListsOk(links0, Ids(vmas0), cur0, at0) ==>
      if Usable(links0, vmas0, len, buddy) then ListsOk(links, Ids(vmas), cur, at)
      else forall c, a :: !ListsOk(links, Ids(vmas), c, a)
  {
    r, vmas, links, cur, at := NULL, vmas0, links0, cur0, at0;
    var order := Ilog2Roundup(len / PAGE);
    var i := FirstList(links, order, Ids(vmas), cur, at);
    if i > MAX_VMA_ORDER {
      return;
    }
    TailChoice(vmas, cur, at, len, buddy);
    var id := links[Head(i)].next.id;
    assert id == cur;
    var vma := vmas[IndexOf(vmas, id)];
    assert vma.free && Length(vma) >= len;
    if Length(vma) >= len + PAGE {
      if buddy == NULL {
        return;
      }
      var rest := Area(buddy, vma.start + len, vma.end, true);
      var buddyOrder := Ilog2(Length(rest) / PAGE);
      assert rest == Rest(vmas, len, buddy) && buddyOrder == OrderOf(rest);
      assert buddyOrder <= MAX_VMA_ORDER;
      links := HandOn(links, id, buddy, buddyOrder, Ids(vmas), at);
      cur, at := buddy, buddyOrder;
    } else {
      links := TakeOff(links, id, Ids(vmas), at);
      cur := NULL;
    }
    vmas := AllocTail(vmas, len, buddy);
    r := id;
  }

  /** The allocator's variables: the list of areas, the free lists, and the nodes of the tree. */
  datatype VmState = VmState(vmas: seq<Area>, links: Links<LNode>, mem: Memory, root: Ref)

  /** What the variables stand for: the one area on a free list, or `NULL`, with the list it is
      on, the shape of the tree, and the areas for which the tree got no node. */
  datatype Meaning = Meaning(cur: nat, at: nat, shape: Tree, lost: set<nat> := {})

  /** The three views agree, as far as anyone can see: the areas tile the range; the one on a free
      list is the last area, is free, and is of that list's order; the tree holds exactly the live
      areas. */
  ghost predicate Agrees(st: VmState, w: Meaning) {
    && AreasOk(st.vmas)
    && HeadsOk(st.links, Ids(st.vmas), w.cur, w.at) && TailIs(st.vmas, w.cur, w.at)
    && TreeOk(st.mem, st.root, w.shape) && Inorder(w.shape) == Live(st.vmas)
  }

  /** All that `free_vma` relies on: the tiling, a tree of live areas, and that no link leads
      nowhere. */
  ghost predicate Mapped(st: VmState, w: Meaning) {
    && AreasOk(st.vmas) && Wired(st.links, Ids(st.vmas))
    && TreeOk(st.mem, st.root, w.shape) && Inorder(w.shape) == Live(st.vmas, w.lost)
  }

  /** What `alloc_vma` relies on besides. */
  ghost predicate Visible(st: VmState, w: Meaning) {
    Mapped(st, w) && HeadsOk(st.links, Ids(st.vmas), w.cur, w.at) && TailIs(st.vmas, w.cur, w.at)
  }

  /** The invariant: besides, the links of areas off the lists can do no harm. */
  ghost predicate StateOk(st: VmState, w: Meaning) {
    Visible(st, w) && ListsOk(st.links, Ids(st.vmas), w.cur, w.at)
  }

  /** `alloc_vma`; `buddy` and `node` are what `kmalloc` answers for the area split off and for
      the tree node.  The views that agree still do exactly when a positive length is asked for
      and the tree gets its node.  The invariant is kept exactly when a positive length is asked
      for and the record for the area split off can be used. */
  method AllocVma(st0: VmState, len: nat, buddy: nat, node: Ref, ghost w0: Meaning)
    returns (r: nat, st: VmState, ghost w: Meaning)
    requires Visible(st0, w0) && len % PAGE == 0 && node !in st0.mem && buddy !in Ids(st0.vmas)
    ensures r != NULL <==> Takes(st0.vmas, w0.cur, w0.at, len, buddy)
    ensures r == NULL ==> st == st0 && w == w0
    ensures r != NULL ==> r == w0.cur && st.vmas == AllocTail(st0.vmas, len, buddy)
    ensures r != NULL ==> Relinked(st0.links, st.links, st0.vmas, w0.cur, len, buddy)
    ensures r != NULL ==> w.cur == if Splits(st0.vmas, len) then buddy else NULL
    ensures r != NULL ==> w.lost == LostNow(w0.lost, r, node)
    ensures r != NULL && len > 0 ==> Visible(st, w)
    ensures r != NULL && w0.lost == {} ==>
      if len > 0 && node != NULL then Agrees(st, w) else forall w' :: !Agrees(st, w')
    ensures r != NULL && StateOk(st0, w0) ==>
      if len > 0 && Usable(st0.links, st0.vmas, len, buddy) then StateOk(st, w) else forall w' :: !StateOk(st, w')
    ensures st.mem.Keys <= st0.mem.Keys + {node}
  {
    st, w := st0, w0;
    var vmas, links;
    ghost var cur, at;
    r, vmas, links, cur, at := TakeTail(st.vmas, st.links, len, buddy, w.cur, w.at);
    if r == NULL {
      return;
    }
    TailLive(st0.vmas, w0.cur, w0.at, len, buddy, w0.lost);
    var mem, root;
    ghost var shape;
    mem, root, shape := GrowTree(st.mem, st.root, vmas[IndexOf(vmas, r)], node, w.shape, st0.vmas, vmas, w0.lost, len > 0);
    st, w := VmState(vmas, links, mem, root), Meaning(cur, at, shape, LostNow(w0.lost, r, node));
    if w0.lost == {} {
      NoneLost(r, node);
      Agreement(st, w, len > 0, node != NULL);
    }
    if ListsOk(st0.links, Ids(st0.vmas), w0.cur, w0.at) {
      Harmless(st, w, len > 0, Usable(st0.links, st0.vmas, len, buddy));
    }
  }

  /** The areas without a node in the tree after an allocation of area `id`. */
  function LostNow(lost: set<nat>, id: nat, node: Ref): set<nat> {
    if node != NULL then lost - {id} else lost + {id}
  }

  lemma NoneLost(id: nat, node: Ref)
    ensures node != NULL ==> LostNow({}, id, node) == {}
  {}

  /** The range of the area handed out goes into the tree. */
  method GrowTree(mem0: Memory, root0: Ref, got: Area, node: Ref, ghost shape0: Tree, ghost s: seq<Area>, ghost r: seq<Area>,
                  ghost lost: set<nat>, ghost tiled: bool)
    returns (mem: Memory, root: Ref, ghost shape: Tree)
    requires TreeOk(mem0, root0, shape0) && Inorder(shape0) == Live(s, lost) && node !in mem0 && got.end > 0
    requires tiled ==>
      && got.start <= got.end - 1 && !AnyOverlap(Live(s, lost), got.start, got.end - 1)
      && Live(r, lost - {got.id}) == Inserted(Live(s, lost), ItemOf(got)) && Live(r, lost + {got.id}) == Live(s, lost)
    ensures TreeOk(mem, root, shape) && mem.Keys <= mem0.Keys + {node}
    ensures tiled ==> Inorder(shape) == Live(r, LostNow(lost, got.id, node))
    ensures node == NULL ==> shape == shape0
  {
    var ignored;
    ignored, mem, root, shape := InsertRange(mem0, root0, ItemOf(got), node, shape0);
  }

  /** Whether the three views agree: the tiling is right, and the tree got its node.  The memory of
      a tree has one shape, so that there is no other reading of it. */
  lemma Agreement(st: VmState, w: Meaning, tiled: bool, grown: bool)
    requires HeadsOk(st.links, Ids(st.vmas), w.cur, w.at) && TailIs(st.vmas, w.cur, w.at)
    requires TreeOk(st.mem, st.root, w.shape) && (AreasOk(st.vmas) <==> tiled)
    requires tiled ==> if grown then Inorder(w.shape) == Live(st.vmas) else |Inorder(w.shape)| < |Live(st.vmas)|
    ensures if tiled && grown then Agrees(st, w) else forall w' :: !Agrees(st, w')
  {
    if tiled && !grown {
      forall w' ensures !Agrees(st, w') {
        if TreeOk(st.mem, st.root, w'.shape) {
          OneShape(st.mem, w.shape, w'.shape, NULL);
        }
      }
    }
  }

  lemma Harmless(st: VmState, w: Meaning, tiled: bool, usable: bool)
    requires (AreasOk(st.vmas) <==> tiled) && (tiled ==> Visible(st, w))
    requires if usable then ListsOk(st.links, Ids(st.vmas), w.cur, w.at) else forall c, a :: !ListsOk(st.links, Ids(st.vmas), c, a)
    ensures if tiled && usable then StateOk(st, w) else forall w' :: !StateOk(st, w')
  {}

  /** When an allocation finds room: the remainder is on a list high enough, and there is a
      record for what is left over. */
  predicate Takes(s: seq<Area>, cur: nat, at: nat, len: nat, buddy: nat) {
    cur != NULL && Ilog2Roundup(len / PAGE) <= at && (Splits(s, len) ==> buddy != NULL)
  }

  function Last(s: seq<Area>): Area {
    if s == [] then Area(NULL, 0, 0, false) else s[|s| - 1]
  }

  /** An allocation from the last area. */
  function AllocTail(s: seq<Area>, len: nat, buddy: nat): seq<Area> {
    if s == [] then [] else Alloc(s[..|s| - 1], s[|s| - 1], [], len, buddy)
  }

  lemma TailFacts(s: seq<Area>, cur: nat, at: nat)
    requires AreasOk(s) && TailIs(s, cur, at) && cur != NULL
    ensures s == s[..|s| - 1] + [Last(s)] + [] && IndexOf(s, cur) == |s| - 1 && NULL !in Ids(s)
    ensures Length(Last(s)) >= PAGE && Length(Last(s)) % PAGE == 0 && Last(s).end == VMALLOC_END && at <= 19
  {
    var b, m := s[..|s| - 1], s[|s| - 1];
    assert s == b + [m] + [];
    TailSpan(b, m);
    TailPlace(b, m);
  }

  lemma TailPlace(b: seq<Area>, m: Area)
    requires DistinctIds(b + [m] + [])
    ensures IndexOf(b + [m] + [], m.id) == |b| && NULL !in Ids(b + [m] + [])
  {
    IdsAround(b, m, []);
    IndexAround(b, m, []);
    NoNullId(b + [m] + []);
  }

  lemma TailSpan(b: seq<Area>, m: Area)
    requires AreasOk(b + [m] + [])
    ensures Length(m) >= PAGE && Length(m) % PAGE == 0 && m.end == VMALLOC_END && OrderOf(m) <= 19
  {
    AlignedStart(b, m, []);
    TilesAround(b, m, [], VMALLOC_START, false, VMALLOC_END);
    WholePages(m);
  }

  lemma WholePages(m: Area)
    requires m.start % PAGE == 0 && m.end % PAGE == 0 && VMALLOC_START <= m.start < m.end <= VMALLOC_END
    ensures Length(m) >= PAGE && Length(m) % PAGE == 0 && OrderOf(m) <= 19
  {
    SpanOrder(Length(m) / PAGE);
  }

  lemma SpanOrder(pages: nat)
    requires 0 < pages < 0x10_0000
    ensures Ilog2(pages) <= 19
  {
    Powers();
    RounddownLargest(pages, 20);
    if Ilog2(pages) > 19 {
      Pow2Monotone(20, Ilog2(pages));
    }
  }

  lemma {:induction false} NoNullId(s: seq<Area>)
    requires DistinctIds(s)
    ensures NULL !in Ids(s)
  {
    if s != [] {
      NoNullId(s[1..]);
    }
  }

  lemma {:induction false} IndexAround(b: seq<Area>, m: Area, a: seq<Area>)
    requires m.id !in Ids(b)
    ensures IndexOf(b + [m] + a, m.id) == |b|
  {
    if b != [] {
      assert (b + [m] + a)[1..] == b[1..] + [m] + a;
      IndexAround(b[1..], m, a);
    }
  }

  /** The size assertion of `alloc_vma`: an area on the list picked, or above, is large enough. */
  lemma TailFits(vma: Area, len: nat)
    requires Length(vma) >= PAGE && Length(vma) % PAGE == 0 && len % PAGE == 0
    requires Ilog2Roundup(len / PAGE) <= OrderOf(vma)
    ensures len <= Length(vma)
  {
    ClassFits(Length(vma) / PAGE, len / PAGE);
  }

  /** The remainder's list is no higher than the list the whole area was on. */
  lemma RestOrder(vma: Area, rest: Area)
    requires PAGE <= Length(rest) <= Length(vma)
    ensures Ilog2(Length(rest) / PAGE) == OrderOf(rest) <= OrderOf(vma)
  {
    RounddownLargest(Length(rest) / PAGE, 0);
    RounddownLargest(Length(vma) / PAGE, OrderOf(rest));
  }

  lemma AllocTailFacts(s: seq<Area>, len: nat, buddy: nat)
    requires AreasOk(s) && s != [] && Last(s).free && len <= Length(Last(s)) && len % PAGE == 0
    ensures var r, split := AllocTail(s, len, buddy), Length(Last(s)) >= len + PAGE;
      && Ids(r) == Ids(s) + (if split then {buddy} else {}) && r != []
      && Last(r) == if split then Area(buddy, Last(s).start + len, Last(s).end, true) else Last(s).(free := false)
  {
    var b, m := s[..|s| - 1], s[|s| - 1];
    var rest := Area(buddy, m.start + len, m.end, true);
    assert s == b + [m] + [];
    IdsAround(b, m, []);
    IdsAround(b, m.(free := false), []);
    IdsAround(b, Got(m, len), [rest] + []);
    IdsAround([], rest, []);
    assert [] + [rest] + [] == [rest] + [];
  }

  /** What `alloc_vma` finds on the list it picks, and what it makes of it. */
  lemma TailChoice(s: seq<Area>, cur: nat, at: nat, len: nat, buddy: nat)
    requires AreasOk(s) && TailIs(s, cur, at) && cur != NULL && len % PAGE == 0 && Ilog2Roundup(len / PAGE) <= at
    ensures IndexOf(s, cur) < |s| && s[IndexOf(s, cur)] == Last(s) && Last(s).free && len <= Length(Last(s)) && NULL !in Ids(s)
    ensures var r, rest := AllocTail(s, len, buddy), Rest(s, len, buddy);
      if Splits(s, len) then
        && Ids(r) == Ids(s) + {buddy} && TailIs(r, buddy, OrderOf(rest)) && at <= 19
        && Ilog2(Length(rest) / PAGE) == OrderOf(rest) <= at
      else Ids(r) == Ids(s)
  {
    TailFacts(s, cur, at);
    TailFits(Last(s), len);
    AllocTailFacts(s, len, buddy);
    if Splits(s, len) {
      RestOrder(Last(s), Rest(s, len, buddy));
    }
  }

  /** What an allocation does to the tiling and to the live ranges. */
  lemma TailLive(s: seq<Area>, cur: nat, at: nat, len: nat, buddy: nat, lost: set<nat>)
    requires AreasOk(s) && TailIs(s, cur, at) && len % PAGE == 0 && Takes(s, cur, at, len, buddy) && buddy !in Ids(s)
    ensures var r, got := AllocTail(s, len, buddy), Got(Last(s), len);
      && IndexOf(r, cur) < |r| && r[IndexOf(r, cur)] == got && got.id == cur && got.end > 0
      && (AreasOk(r) <==> len > 0) && |Live(r)| == |Live(s)| + 1
      && (len > 0 ==> got.start <= got.end - 1 && !AnyOverlap(Live(s, lost), got.start, got.end - 1)
                      && Live(r, lost - {cur}) == Inserted(Live(s, lost), ItemOf(got)) && Live(r, lost + {cur}) == Live(s, lost))
  {
    TailFacts(s, cur, at);
    var b, m := s[..|s| - 1], s[|s| - 1];
    TailFits(m, len);
    IdsAround(b, m, []);
    AlignedStart(b, m, []);
    LiveAround(b, m, [], {});
    AllocLives(b, m, [], len, buddy, {});
    var rest := Area(buddy, m.start + len, m.end, true);
    if Length(m) >= len + PAGE {
      IndexAround(b, Got(m, len), [rest] + []);
    } else {
      IndexAround(b, Got(m, len), []);
    }
    if len > 0 {
      AllocKeeps(b, m, [], len, buddy);
      AllocLive(b, m, [], len, buddy, lost);
    } else {
      TilesAround(b, Got(m, 0), [rest] + [], VMALLOC_START, false, VMALLOC_END);
    }
  }

  // ---------------------------------------------------------------- freeing

  /** The areas after `free_vma(m)`: `m` has swallowed a free neighbour on either side. */
  function Freed(b: seq<Area>, m: Area, a: seq<Area>): seq<Area> {
    var p := LastFree(b, false);
    var n := a != [] && a[0].free;
    var start := if p then b[|b| - 1].start else m.start;
    var end := if n then a[0].end else m.end;
    (if p then b[..|b| - 1] else b) + [Area(m.id, start, end, true)] + (if n then a[1..] else a)
  }

  lemma PrevStep(b: seq<Area>, p: Area, m: Area, a: seq<Area>, links: Links<LNode>, cur: nat, at: nat, lost: set<nat>)
    requires AreasOk((b + [p]) + [m] + a) && p.free && !m.free && Wired(links, Ids((b + [p]) + [m] + a))
    ensures p.end == m.start && AreasOk(b + [m.(start := p.start)] + a) && !LastFree(b, false) && Live(b + [p], lost) == Live(b, lost)
    ensures HasLinks(links, p.id) && Wired(Unlinked(links, Of(p.id)), Ids(b + [m.(start := p.start)] + a))
    ensures ListsOk(links, Ids((b + [p]) + [m] + a), cur, at) && (cur != NULL ==> cur in Ids(a)) ==>
      ListsOk(Unlinked(links, Of(p.id)), Ids(b + [m.(start := p.start)] + a), cur, at)
  {
    SwallowPrev(b, p, m, a, lost);
    IdsAround(b + [p], m, a);
    IdsAround(b, p, []);
    assert b + [p] + [] == b + [p];
    var ids := Ids((b + [p]) + [m] + a);
    assert p.id in ids;
    UnlinkedWired(links, ids, p.id);
    if ListsOk(links, ids, cur, at) && (cur != NULL ==> cur in Ids(a)) {
      StaleUnlinked(links, ids, cur, at, p.id);
    }
  }

  lemma NextStep(b: seq<Area>, m: Area, n: Area, a: seq<Area>, links: Links<LNode>, cur: nat, at: nat, lost: set<nat>)
    requires AreasOk(b + [m] + ([n] + a)) && n.free && !m.free && Wired(links, Ids(b + [m] + ([n] + a)))
    ensures m.end == n.start && AreasOk(b + [m.(end := n.end)] + a) && (a != [] ==> !a[0].free) && Live([n] + a, lost) == Live(a, lost)
    ensures HasLinks(links, n.id) && Wired(Unlinked(links, Of(n.id)), Ids(b + [m.(end := n.end)] + a))
    ensures ListsOk(links, Ids(b + [m] + ([n] + a)), cur, at) ==>
      ListsOk(Unlinked(links, Of(n.id)), Ids(b + [m.(end := n.end)] + a), if n.id == cur then NULL else cur, at)
  {
    SwallowNext(b, m, n, a, lost);
    IdsAround(b, m, [n] + a);
    var ids := Ids(b + [m] + ([n] + a));
    assert n.id in ids && n.id != NULL;
    UnlinkedWired(links, ids, n.id);
    if ListsOk(links, ids, cur, at) {
      if n.id == cur {
        CurUnlinked(links, ids, cur, at);
      } else {
        StaleUnlinked(links, ids, cur, at, n.id);
      }
    }
  }

  /** The first loop of `free_vma`: it runs at most once, its adjacency assertion holds, and the
      unlinking of the area swallowed, if it is off the free lists and its links can do no harm,
      leaves them alone. */
  method MergePrev(b0: seq<Area>, m0: Area, a: seq<Area>, links0: Links<LNode>, ghost cur: nat, ghost at: nat, ghost lost: set<nat>)
    returns (b: seq<Area>, m: Area, links: Links<LNode>)
    requires AreasOk(b0 + [m0] + a) && !m0.free && Wired(links0, Ids(b0 + [m0] + a))
    ensures b == if LastFree(b0, false) then b0[..|b0| - 1] else b0
    ensures m == if LastFree(b0, false) then m0.(start := b0[|b0| - 1].start) else m0
    ensures AreasOk(b + [m] + a) && !LastFree(b, false) && Live(b, lost) == Live(b0, lost) && Wired(links, Ids(b + [m] + a))
    ensures ListsOk(links0, Ids(b0 + [m0] + a), cur, at) && (cur != NULL ==> cur in Ids(a)) ==>
      ListsOk(links, Ids(b + [m] + a), cur, at)
    ensures if LastFree(b0, false) then Dropped(links0, links, b0[|b0| - 1].id) else links == links0
  {
    b, m, links := b0, m0, links0;
    while |b| > 0 && b[|b| - 1].free
      invariant AreasOk(b + [m] + a) && !m.free && Live(b, lost) == Live(b0, lost) && Wired(links, Ids(b + [m] + a))
      invariant ListsOk(links0, Ids(b0 + [m0] + a), cur, at) && (cur != NULL ==> cur in Ids(a)) ==>
        ListsOk(links, Ids(b + [m] + a), cur, at)
      invariant (b == b0 && m == m0 && links == links0) ||
        (&& LastFree(b0, false) && b == b0[..|b0| - 1] && m == m0.(start := b0[|b0| - 1].start) && !LastFree(b, false)
         && Dropped(links0, links, b0[|b0| - 1].id))
      decreases |b|
    {
      var prev := b[|b| - 1];
      assert b == b[..|b| - 1] + [prev];
      PrevStep(b[..|b| - 1], prev, m, a, links, cur, at, lost);
      assert prev.end == m.start;
      m := m.(start := prev.start);
      b := b[..|b| - 1];
      links := Unlinked(links, Of(prev.id));
    }
  }

  /** The second loop: the area swallowed may be the one that is on a free list, and then no
      area is on any. */
  method MergeNext(b: seq<Area>, m0: Area, a0: seq<Area>, links0: Links<LNode>, ghost cur0: nat, ghost at: nat, ghost lost: set<nat>)
    returns (m: Area, a: seq<Area>, links: Links<LNode>, ghost cur: nat)
    requires AreasOk(b + [m0] + a0) && !m0.free && Wired(links0, Ids(b + [m0] + a0))
    ensures var n := a0 != [] && a0[0].free;
      && a == (if n then a0[1..] else a0) && m == (if n then m0.(end := a0[0].end) else m0)
      && cur == (if n && a0[0].id == cur0 then NULL else cur0)
    ensures AreasOk(b + [m] + a) && (a != [] ==> !a[0].free) && Live(a, lost) == Live(a0, lost) && Wired(links, Ids(b + [m] + a))
    ensures ListsOk(links0, Ids(b + [m0] + a0), cur0, at) ==> ListsOk(links, Ids(b + [m] + a), cur, at)
    ensures if a0 != [] && a0[0].free then Dropped(links0, links, a0[0].id) else links == links0
  {
    m, a, links, cur := m0, a0, links0, cur0;
    while |a| > 0 && a[0].free
      invariant AreasOk(b + [m] + a) && !m.free && Live(a, lost) == Live(a0, lost) && Wired(links, Ids(b + [m] + a))
      invariant ListsOk(links0, Ids(b + [m0] + a0), cur0, at) ==> ListsOk(links, Ids(b + [m] + a), cur, at)
      invariant (a == a0 && m == m0 && cur == cur0 && links == links0) ||
        (&& a0 != [] && a0[0].free && a == a0[1..] && m == m0.(end := a0[0].end) && (a != [] ==> !a[0].free)
         && Dropped(links0, links, a0[0].id) && cur == if a0[0].id == cur0 then NULL else cur0)
      decreases |a|
    {
      var next := a[0];
      assert a == [next] + a[1..];
      NextStep(b, m, next, a[1..], links, cur, at, lost);
      assert m.end == next.start;
      cur := if next.id == cur then NULL else cur;
      m := m.(end := next.end);
      a := a[1..];
      links := Unlinked(links, Of(next.id));
    }
  }

  lemma {:induction false} LastIn(s: seq<Area>)
    requires s != []
    ensures Last(s).id in Ids(s)
  {
    if |s| > 1 {
      LastIn(s[1..]);
    }
  }

  /** An area that does not end the range has areas after it, the one on a free list, if any,
      being the last of them. */
  lemma NotLast(b: seq<Area>, m: Area, a: seq<Area>, cur: nat, at: nat)
    requires AreasOk(b + [m] + a) && TailIs(b + [m] + a, cur, at) && m.end < VMALLOC_END
    ensures a != [] && TailIs(a, cur, at) && (cur != NULL ==> cur in Ids(a))
    ensures cur != NULL && |a| > 1 ==> a[0].id != cur
  {
    TilesAround(b, m, a, VMALLOC_START, false, VMALLOC_END);
    IdsAround(b, m, a);
    assert a != [];
    LastIn(a);
    if |a| > 1 {
      LastIn(a[1..]);
    }
  }

  /** What `rb_tree_remove` finds: the area, unless the tree has no node for it. */
  lemma RemoveLive(b: seq<Area>, m: Area, a: seq<Area>, lost: set<nat>)
    requires AreasOk(b + [m] + a) && !m.free && Sorted(Live(b + [m] + a, lost))
    ensures Removed(Live(b + [m] + a, lost), m.start) == Live(b, lost) + Live(a, lost)
  {
    LiveAround(b, m, a, lost);
    AlignedStart(b, m, a);
    if m.id in lost {
      TilesAround(b, m, a, VMALLOC_START, false, VMALLOC_END);
      LiveWithin(b, VMALLOC_START, false, m.start, lost);
      LiveWithin(a, m.end, false, VMALLOC_END, lost);
      NotFound(Live(b, lost), Live(a, lost), m.start);
    } else {
      ScanFinds(Live(b, lost), ItemOf(m), Live(a, lost), m.start);
      RemovedMid(Live(b, lost), ItemOf(m), Live(a, lost), m.start);
    }
  }

  lemma NotFound(b: seq<Item>, a: seq<Item>, key: nat)
    requires (forall y :: y in b ==> y.end < key) && (forall y :: y in a ==> key < y.start)
    ensures Removed(b + a, key) == b + a
  {
    forall i | 0 <= i < |b + a| ensures !Contains((b + a)[i], key) {
      assert (b + a)[i] in b || (b + a)[i] in a;
    }
  }

  /** What both loops do to the links: one `list_remove` for each neighbour swallowed. */
  ghost predicate Delisted(links0: Links<LNode>, links: Links<LNode>, b: seq<Area>, a: seq<Area>) {
    exists mid :: DelistedVia(links0, mid, links, b, a)
  }

  ghost predicate DelistedVia(links0: Links<LNode>, mid: Links<LNode>, links: Links<LNode>, b: seq<Area>, a: seq<Area>) {
    && (if LastFree(b, false) then Dropped(links0, mid, b[|b| - 1].id) else mid == links0)
    && (if a != [] && a[0].free then Dropped(mid, links, a[0].id) else links == mid)
  }

  /** Both loops, and the area becomes free. */
  method MergeBoth(b0: seq<Area>, m0: Area, a0: seq<Area>, links0: Links<LNode>, ghost cur0: nat, ghost at: nat, ghost lost: set<nat>)
    returns (vmas: seq<Area>, links: Links<LNode>, ghost cur: nat)
    requires AreasOk(b0 + [m0] + a0) && !m0.free && Wired(links0, Ids(b0 + [m0] + a0))
    ensures vmas == Freed(b0, m0, a0) && AreasOk(vmas) && Live(vmas, lost) == Live(b0, lost) + Live(a0, lost) && Wired(links, Ids(vmas))
    ensures cur == if a0 != [] && a0[0].free && a0[0].id == cur0 then NULL else cur0
    ensures ListsOk(links0, Ids(b0 + [m0] + a0), cur0, at) && (cur0 != NULL ==> cur0 in Ids(a0)) ==> ListsOk(links, Ids(vmas), cur, at)
    ensures Delisted(links0, links, b0, a0)
  {
    var b, m, a := b0, m0, a0;
    b, m, links := MergePrev(b, m, a, links0, cur0, at, lost);
    ghost var mid := links;
    m, a, links, cur := MergeNext(b, m, a, links, cur0, at, lost);
    assert DelistedVia(links0, mid, links, b0, a0);
    Released(b, m, a, lost);
    vmas := b + [m.(free := true)] + a;
  }

  /** Only the last area is ever on a list. */
  lemma TailAfter(b: seq<Area>, m: Area, a: seq<Area>, cur: nat, at: nat)
    requires a != [] && TailIs(a, cur, at)
    ensures TailIs(Freed(b, m, a), if a[0].free && a[0].id == cur then NULL else cur, at)
  {
    var r := Freed(b, m, a);
    if !(a[0].free && |a| == 1) {
      assert r[|r| - 1] == a[|a| - 1];
    }
  }

  /** The bounds that `free_vma` asserts. */
  predicate Freeable(vma: Area) {
    VMALLOC_START <= vma.start && vma.end < VMALLOC_END
  }

  /** `free_vma` past its first assertion, on the area between `b` and `a`. */
  method FreeMid(st0: VmState, b: seq<Area>, m: Area, a: seq<Area>, ghost w0: Meaning) returns (st: VmState, ghost w: Meaning)
    requires Mapped(st0, w0) && st0.vmas == b + [m] + a && !m.free && m.end < VMALLOC_END
    ensures Mapped(st, w) && st.mem.Keys <= st0.mem.Keys && w.lost == w0.lost
    ensures st.vmas == Freed(b, m, a) && Delisted(st0.links, st.links, b, a)
    ensures StateOk(st0, w0) ==> StateOk(st, w) && w.cur == if |a| == 1 && a[0].free then NULL else w0.cur
  {
    RemoveLive(b, m, a, w0.lost);
    var ret, mem, root, vmas, links;
    ghost var shape, cur;
    ret, mem, root, shape := RemoveKey(st0.mem, st0.root, m.start, w0.shape);
    vmas, links, cur := MergeBoth(b, m, a, st0.links, w0.cur, w0.at, w0.lost);
    st, w := VmState(vmas, links, mem, root), Meaning(cur, w0.at, shape, w0.lost);
    if StateOk(st0, w0) {
      NotLast(b, m, a, w0.cur, w0.at);
      TailAfter(b, m, a, w0.cur, w0.at);
    }
  }

  /** `free_vma` of any live area, whatever the free lists look like.  Its first assertion stops
      the kernel exactly when the area ends the range; otherwise the tree loses exactly that area,
      whatever it swallows.  The invariant is kept. */
  method FreeVma(st0: VmState, id: nat, ghost w0: Meaning) returns (halted: bool, st: VmState, ghost w: Meaning)
    requires Mapped(st0, w0) && id in Ids(st0.vmas) && !st0.vmas[IndexOf(st0.vmas, id)].free
    ensures Mapped(st, w) && w.lost == w0.lost
    ensures StateOk(st0, w0) ==> StateOk(st, w)
    ensures halted <==> st0.vmas[IndexOf(st0.vmas, id)].end == VMALLOC_END
    ensures halted ==> st == st0 && w == w0
    ensures st.mem.Keys <= st0.mem.Keys
    ensures !halted ==>
      var k := IndexOf(st0.vmas, id);
      && st.vmas == Freed(st0.vmas[..k], st0.vmas[k], st0.vmas[k + 1..])
      && Delisted(st0.links, st.links, st0.vmas[..k], st0.vmas[k + 1..])
      && (StateOk(st0, w0) ==> w.cur == if k + 2 == |st0.vmas| && st0.vmas[k + 1].free then NULL else w0.cur)
  {
    var k := IndexOf(st0.vmas, id);
    var b, m, a := st0.vmas[..k], st0.vmas[k], st0.vmas[k + 1..];
    assert st0.vmas == b + [m] + a;
    AlignedStart(b, m, a);
    st, w, halted := st0, w0, !Freeable(m);
    if halted {
      return;
    }
    st, w := FreeMid(st0, b, m, a, w0);
  }

  /** An area that `alloc_vma` hands out can be freed again exactly when a remainder was split
      off behind it. */
  lemma HandedOutFreeable(s: seq<Area>, cur: nat, at: nat, len: nat, buddy: nat)
    requires AreasOk(s) && TailIs(s, cur, at) && len % PAGE == 0 && Takes(s, cur, at, len, buddy)
    ensures Freeable(Got(Last(s), len)) <==> Splits(s, len)
  {
    TailFacts(s, cur, at);
    AlignedStart(s[..|s| - 1], Last(s), []);
  }

  // ---------------------------------------------------------------- lookup

  predicate Shows(a: Area, lost: set<nat>, y: Item) { !a.free && a.id !in lost && y == ItemOf(a) }

  lemma {:induction false} LiveFrom(s: seq<Area>, y: Item, lost: set<nat>)
    ensures y in Live(s, lost) <==> exists i :: 0 <= i < |s| && Shows(s[i], lost, y)
  {
    if s != [] {
      LiveFrom(s[1..], y, lost);
      if i :| 0 <= i < |s| && Shows(s[i], lost, y) {
        assert i > 0 ==> s[1..][i - 1] == s[i];
      }
      if y in Live(s[1..], lost) {
        var i :| 0 <= i < |s[1..]| && Shows(s[1..][i], lost, y);
        assert s[i + 1] == s[1..][i];
      }
    }
  }

  predicate Holds(a: Area, va: nat, lost: set<nat>) { !a.free && a.id !in lost && a.start <= va < a.end }

  /** The search in `find_vma`: the live area around an address, if there is one and the tree got
      its node. */
  method FindVma(st: VmState, va: nat, ghost w: Meaning) returns (id: nat)
    requires Mapped(st, w) && VMALLOC_START <= va < VMALLOC_END
    ensures id != NULL <==> exists i :: 0 <= i < |st.vmas| && Holds(st.vmas[i], va, w.lost)
    ensures id != NULL ==> exists i :: 0 <= i < |st.vmas| && Holds(st.vmas[i], va, w.lost) && st.vmas[i].id == id
  {
    var node;
    ghost var steps, c, t;
    node, steps, c, t := Search(st.mem, st.root, va, w.shape);
    var s := st.vmas;
    if node == NULL {
      NoneHolds(s, va, w.lost);
      id := NULL;
    } else {
      id := st.mem[node].item.value;
      SomeHolds(s, va, w.lost);
    }
  }

  lemma NoneHolds(s: seq<Area>, va: nat, lost: set<nat>)
    requires Scan(Live(s, lost), va) == |Live(s, lost)|
    ensures forall i :: 0 <= i < |s| ==> !Holds(s[i], va, lost)
  {
    forall i | 0 <= i < |s| ensures !Holds(s[i], va, lost) {
      LiveFrom(s, ItemOf(s[i]), lost);
      assert !s[i].free && s[i].id !in lost ==> Shows(s[i], lost, ItemOf(s[i]));
    }
  }

  lemma AreaFacts(s: seq<Area>, i: nat)
    requires AreasOk(s) && i < |s|
    ensures s[i].id != NULL && VMALLOC_START <= s[i].start < s[i].end <= VMALLOC_END
  {
    assert s == s[..i] + [s[i]] + s[i + 1..];
    AlignedStart(s[..i], s[i], s[i + 1..]);
    IdsAround(s[..i], s[i], s[i + 1..]);
  }

  lemma SomeHolds(s: seq<Area>, va: nat, lost: set<nat>)
    requires AreasOk(s) && Scan(Live(s, lost), va) < |Live(s, lost)|
    ensures var id := Live(s, lost)[Scan(Live(s, lost), va)].value;
      id != NULL && exists i :: 0 <= i < |s| && Holds(s[i], va, lost) && s[i].id == id
  {
    var y := Live(s, lost)[Scan(Live(s, lost), va)];
    LiveFrom(s, y, lost);
    var i :| 0 <= i < |s| && Shows(s[i], lost, y);
    AreaFacts(s, i);
    assert Holds(s[i], va, lost) && s[i].id == y.value;
  }

  // ---------------------------------------------------------------- whole runs

  /** `vmalloc_init`; `first` is the address `kmalloc` gives the first area. */
  function InitState(first: nat): VmState {
    VmState([Area(first, VMALLOC_START, VMALLOC_END, true)], Linked(EmptyLists(), Head(19), Of(first)), map[], NULL)
  }

  /** The allocator as the object that the kernel's variables make up. */
  class VmSpace {
    var st: VmState
    ghost var w: Meaning

    ghost predicate Valid()
      reads this
    {
      StateOk(st, w)
    }

    constructor (first: nat)
      requires first != NULL
      ensures Valid() && st == InitState(first)
    {
      InitialState(first);
      st, w := InitState(first), Meaning(first, 19, Leaf);
    }

    /** Every run: any request of whole pages, whatever `kmalloc` answers. */
    method Alloc(len: nat, buddy: nat, node: Ref) returns (r: nat)
      requires Valid() && len % PAGE == 0 && node !in st.mem && buddy !in Ids(st.vmas)
      modifies this
      ensures Valid() <==> r == NULL || (len > 0 && old(Usable(st.links, st.vmas, len, buddy)))
      ensures !Valid() ==> forall w' :: !StateOk(st, w')
      ensures old(w.lost) == {} && r != NULL ==> if len > 0 && node != NULL then Agrees(st, w) else forall w' :: !Agrees(st, w')
      ensures w.lost == if r == NULL then old(w.lost) else LostNow(old(w.lost), r, node)
      ensures r != NULL <==> old(Takes(st.vmas, w.cur, w.at, len, buddy))
      ensures st.vmas == if r == NULL then old(st.vmas) else AllocTail(old(st.vmas), len, buddy)
      ensures old(w.cur) == NULL ==> w.cur == NULL
    {
      var st1;
      r, st1, w := AllocVma(st, len, buddy, node, w);
      st := st1;
    }

    /** Any live area: the kernel stops exactly if it ends the range. */
    method Free(id: nat) returns (halted: bool)
      requires Valid() && id in Ids(st.vmas) && !st.vmas[IndexOf(st.vmas, id)].free
      modifies this
      ensures Valid() && w.lost == old(w.lost)
      ensures halted <==> old(st.vmas[IndexOf(st.vmas, id)].end) == VMALLOC_END
      ensures var s, k := old(st.vmas), IndexOf(old(st.vmas), id);
        st.vmas == if halted then s else Freed(s[..k], s[k], s[k + 1..])
      ensures old(w.cur) == NULL ==> w.cur == NULL
    {
      var st1;
      halted, st1, w := FreeVma(st, id, w);
      st := st1;
    }
  }

  /** `list_init` on every free list. */
  function EmptyLists(): Links<LNode> {
    map i | 0 <= i <= 20 :: Head(i) := Link(Head(i), Head(i))
  }

  lemma InitialOk(first: nat)
    requires first != NULL
    ensures var s := [Area(first, VMALLOC_START, VMALLOC_END, true)];
      && Ilog2(Length(s[0]) / PAGE) == 19
      && AreasOk(s) && Live(s) == [] && TailIs(s, first, 19)
      && ListsOk(Linked(EmptyLists(), Head(19), Of(first)), Ids(s), first, 19)
  {
    InitialOrder();
    var s := [Area(first, VMALLOC_START, VMALLOC_END, true)];
    assert s[1..] == [] && Tiles([], VMALLOC_END, true, VMALLOC_END);
    assert Ids(s) == {first};
  }

  lemma InitialState(first: nat)
    requires first != NULL
    ensures StateOk(InitState(first), Meaning(first, 19, Leaf))
  {
    InitialOk(first);
    OkWired(InitState(first).links, {first}, first, 19);
  }

  lemma InitialOrder()
    ensures Ilog2((VMALLOC_END - VMALLOC_START) / PAGE) == 19
  {
    Powers();
    FlsUnique(0xBFFFF, 20);
  }
}

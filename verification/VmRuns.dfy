/** mm/vmalloc.c with its free lists as plain sequences, in which removing what is not there does
    nothing: the three views agree over every run, wherever `kmalloc` puts its records. */
module VmRuns {
  import opened Distinct
  import opened Log2
  import opened RbShape
  import opened RbSpec
  import opened VmAreas
  import opened VmLists
  import opened Vmalloc

  /** The list of areas, the free lists by order, the ranges in the tree, and the areas for which
      the tree got no node. */
  datatype Flat = Flat(vmas: seq<Area>, lists: seq<seq<nat>>, tree: seq<Item>, lost: set<nat>)

  /** Calls of `alloc_vma`, with the record and the tree node `kmalloc` gives, and of `free_vma`. */
  datatype Call = Ask(len: nat, buddy: nat, node: Ref) | GiveBack(id: nat)

  /** `list_remove` of area `x`, whatever list it is on. */
  function Off(lists: seq<seq<nat>>, x: nat): (r: seq<seq<nat>>)
    ensures |r| == |lists| && forall i :: 0 <= i < |r| ==> r[i] == Without(lists[i], x)
  {
    seq(|lists|, i requires 0 <= i < |lists| => Without(lists[i], x))
  }

  function Pick(lists: seq<seq<nat>>, i: nat): (k: nat)
    requires i <= |lists|
    ensures i <= k <= |lists| && (k < |lists| ==> lists[k] != []) && forall j :: i <= j < k ==> lists[j] == []
    decreases |lists| - i
  {
    if i == |lists| || lists[i] != [] then i else Pick(lists, i + 1)
  }

  /** `alloc_vma`, once it has found the area at position `k`. */
  function AskedAt(s: Flat, k: nat, len: nat, buddy: nat, node: Ref): Flat
    requires k < |s.vmas|
  {
    var vma := s.vmas[k];
    var split := Length(vma) >= len + PAGE;
    var j := OrderOf(Area(buddy, vma.start + len, vma.end, true));
    if split && (buddy == NULL || j >= |s.lists|) then s else
    var item := ItemOf(Got(vma, len));
    Flat(Alloc(s.vmas[..k], vma, s.vmas[k + 1..], len, buddy),
         Off(if split then s.lists[j := [buddy] + s.lists[j]] else s.lists, vma.id),
         if item.start > item.end || AnyOverlap(s.tree, item.start, item.end) || node == NULL then s.tree
         else Inserted(s.tree, item),
         LostNow(s.lost, vma.id, node))
  }

  function Asked(s: Flat, len: nat, buddy: nat, node: Ref): Flat {
    var order := Ilog2Roundup(len / PAGE);
    var i := if order <= |s.lists| then Pick(s.lists, order) else |s.lists|;
    if i == |s.lists| then s else
    var k := IndexOf(s.vmas, s.lists[i][0]);
    if k == |s.vmas| then s else AskedAt(s, k, len, buddy, node)
  }

  /** `free_vma`; its first assertion stops the kernel, which leaves everything as it is. */
  function Given(s: Flat, id: nat): Flat {
    var k := IndexOf(s.vmas, id);
    if k == |s.vmas| || s.vmas[k].free || !Freeable(s.vmas[k]) then s else
    var b, m, a := s.vmas[..k], s.vmas[k], s.vmas[k + 1..];
    var lists := if LastFree(b, false) then Off(s.lists, b[|b| - 1].id) else s.lists;
    Flat(Freed(b, m, a), if a != [] && a[0].free then Off(lists, a[0].id) else lists, Removed(s.tree, m.start), s.lost)
  }

  /** One call.  `kmalloc` never gives a record that is in use. */
  function Next(s: Flat, c: Call): Flat {
    match c
    case Ask(len, buddy, node) => if buddy in Ids(s.vmas) then s else Asked(s, len, buddy, node)
    case GiveBack(id) => Given(s, id)
  }

  function After(s: Flat, cs: seq<Call>): Flat
    decreases |cs|
  {
    if cs == [] then s else After(Next(s, cs[0]), cs[1..])
  }

  // ---------------------------------------------------------------- agreement

  /** The lists hold the area `cur`, on list `at`, or nothing. */
  predicate Holding(lists: seq<seq<nat>>, cur: nat, at: nat) {
    && |lists| == MAX_VMA_ORDER + 1
    && forall i :: 0 <= i < |lists| ==> lists[i] == if cur != NULL && i == at then [cur] else []
  }

  /** The areas tile the range; only the last, if any, is on a list, and that the right one; the
      tree holds exactly the live areas whose node it got. */
  ghost predicate Agree(s: Flat, cur: nat, at: nat) {
    AreasOk(s.vmas) && TailIs(s.vmas, cur, at) && Holding(s.lists, cur, at) && s.tree == Live(s.vmas, s.lost)
  }

  ghost predicate FlatOk(s: Flat) { exists cur, at :: Agree(s, cur, at) }

  /** The areas determine the rest. */
  lemma OneReading(s: Flat, t: Flat, cur: nat, at: nat, at': nat)
    requires Agree(s, cur, at) && Agree(t, cur, at') && s.vmas == t.vmas && s.lost == t.lost
    ensures s == t
  {
    assert |s.lists| == |t.lists| && forall i :: 0 <= i < |s.lists| ==> s.lists[i] == t.lists[i];
  }

  /** A request finds the last area, or nothing. */
  lemma AskFinds(s: Flat, cur: nat, at: nat, len: nat, buddy: nat, node: Ref)
    requires Agree(s, cur, at)
    ensures Asked(s, len, buddy, node) ==
      if cur != NULL && Ilog2Roundup(len / PAGE) <= at then AskedAt(s, |s.vmas| - 1, len, buddy, node) else s
  {
    if cur != NULL {
      TailFacts(s.vmas, cur, at);
      assert s.lists[at] == [cur];
    }
  }

  /** What a request takes, and that the tree accepts it if it gets its node. */
  lemma AskIs(s: Flat, cur: nat, at: nat, len: nat, buddy: nat, node: Ref)
    requires Agree(s, cur, at) && len % PAGE == 0 && len > 0 && Takes(s.vmas, cur, at, len, buddy)
    ensures var split, j, r, lost := Splits(s.vmas, len), OrderOf(Rest(s.vmas, len, buddy)), AllocTail(s.vmas, len, buddy), LostNow(s.lost, cur, node);
      && (split ==> j <= MAX_VMA_ORDER)
      && AskedAt(s, |s.vmas| - 1, len, buddy, node) ==
         Flat(r, Off(if split then s.lists[j := [buddy] + s.lists[j]] else s.lists, cur), Live(r, lost), lost)
  {
    TailFacts(s.vmas, cur, at);
    var b, vma := s.vmas[..|s.vmas| - 1], Last(s.vmas);
    TailFits(vma, len);
    if Splits(s.vmas, len) {
      RestOrder(vma, Rest(s.vmas, len, buddy));
    }
    AllocLive(b, vma, [], len, buddy, s.lost);
    AlignedStart(b, vma, []);
  }

  lemma HoldingNext(lists: seq<seq<nat>>, cur: nat, at: nat, buddy: nat, j: nat)
    requires Holding(lists, cur, at) && cur != NULL && cur != buddy
    ensures Holding(Off(lists, cur), NULL, at)
    ensures buddy != NULL && j < |lists| ==> Holding(Off(lists[j := [buddy] + lists[j]], cur), buddy, j)
  {
    if j < |lists| {
      var l := Off(lists[j := [buddy] + lists[j]], cur);
      forall i | 0 <= i < |l| ensures l[i] == if i == j then [buddy] else [] {
        assert ([buddy] + lists[j])[1..] == lists[j] && [cur][1..] == [];
        assert Without([cur], cur) == [] && l[j] == Without([buddy] + lists[j], cur) == [buddy] + Without(lists[j], cur);
      }
    }
  }

  /** What is on a list after a request, and which. */
  function CurAfter(s: seq<Area>, cur: nat, at: nat, len: nat, buddy: nat): nat {
    if !Takes(s, cur, at, len, buddy) then cur else if Splits(s, len) then buddy else NULL
  }

  function AtAfter(s: seq<Area>, cur: nat, at: nat, len: nat, buddy: nat): nat {
    if Takes(s, cur, at, len, buddy) && Splits(s, len) then OrderOf(Rest(s, len, buddy)) else at
  }

  lemma AskKeeps(s: Flat, cur: nat, at: nat, len: nat, buddy: nat, node: Ref)
    requires Agree(s, cur, at) && len % PAGE == 0 && len > 0 && buddy !in Ids(s.vmas)
    ensures var t, takes := Asked(s, len, buddy, node), Takes(s.vmas, cur, at, len, buddy);
      && Agree(t, CurAfter(s.vmas, cur, at, len, buddy), AtAfter(s.vmas, cur, at, len, buddy))
      && t.vmas == (if takes then AllocTail(s.vmas, len, buddy) else s.vmas)
      && t.lost == if takes then LostNow(s.lost, cur, node) else s.lost
  {
    AskFinds(s, cur, at, len, buddy, node);
    if Takes(s.vmas, cur, at, len, buddy) {
      AskIs(s, cur, at, len, buddy, node);
      TailChoice(s.vmas, cur, at, len, buddy);
      TailLive(s.vmas, cur, at, len, buddy, s.lost);
      HoldingNext(s.lists, cur, at, buddy, OrderOf(Rest(s.vmas, len, buddy)));
    }
  }

  // ---------------------------------------------------------------- giving back

  /** A live area between others becomes free, with its free neighbours. */
  lemma FreedOk(b: seq<Area>, m: Area, a: seq<Area>, lost: set<nat>)
    requires AreasOk(b + [m] + a) && !m.free
    ensures AreasOk(Freed(b, m, a)) && Live(Freed(b, m, a), lost) == Live(b, lost) + Live(a, lost)
  {
    var b1, m1, a1 := b, m, a;
    if LastFree(b, false) {
      var p := b[|b| - 1];
      assert b == b[..|b| - 1] + [p];
      SwallowPrev(b[..|b| - 1], p, m, a, lost);
      b1, m1 := b[..|b| - 1], m.(start := p.start);
    }
    if a != [] && a[0].free {
      assert a == [a[0]] + a[1..];
      SwallowNext(b1, m1, a[0], a[1..], lost);
      m1, a1 := m1.(end := a[0].end), a[1..];
    }
    Released(b1, m1, a1, lost);
  }

  /** Only the last area can leave a list. */
  lemma HoldingLess(lists: seq<seq<nat>>, cur: nat, at: nat, x: nat)
    requires Holding(lists, cur, at)
    ensures Holding(Off(lists, x), if x == cur then NULL else cur, at)
  {
    var l := Off(lists, x);
    forall i | 0 <= i < |l| ensures l[i] == if cur != NULL && x != cur && i == at then [cur] else [] {
      assert [cur][1..] == [];
      assert Without([cur], x) == if x == cur then [] else [cur];
    }
  }

  lemma {:induction false} LiveSorted(s: seq<Area>, lo: nat, free: bool, hi: nat, lost: set<nat>)
    requires Tiles(s, lo, free, hi)
    ensures Sorted(Live(s, lost))
  {
    if s != [] {
      LiveSorted(s[1..], s[0].end, s[0].free, hi, lost);
      LiveWithin(s[1..], s[0].end, s[0].free, hi, lost);
      var r := Live(s[1..], lost);
      assert forall i :: 0 <= i < |r| ==> r[i] in r;
    }
  }

  lemma ListsAfter(lists: seq<seq<nat>>, b: seq<Area>, a: seq<Area>, cur: nat, at: nat)
    requires Holding(lists, cur, at) && a != [] && (LastFree(b, false) ==> b[|b| - 1].id != cur)
    ensures var l := if LastFree(b, false) then Off(lists, b[|b| - 1].id) else lists;
      Holding(if a[0].free then Off(l, a[0].id) else l, if a[0].free && a[0].id == cur then NULL else cur, at)
  {
    var l := lists;
    if LastFree(b, false) {
      HoldingLess(lists, cur, at, b[|b| - 1].id);
      l := Off(lists, b[|b| - 1].id);
    }
    HoldingLess(l, cur, at, a[0].id);
  }

  /** Whether `free_vma` does anything. */
  predicate Gives(s: seq<Area>, id: nat) { var k := IndexOf(s, id); k < |s| && !s[k].free && Freeable(s[k]) }

  lemma GiveKeeps(s: Flat, cur: nat, at: nat, id: nat)
    requires Agree(s, cur, at)
    ensures var t, k := Given(s, id), IndexOf(s.vmas, id);
      && t.lost == s.lost
      && if Gives(s.vmas, id) then
           && t.vmas == Freed(s.vmas[..k], s.vmas[k], s.vmas[k + 1..])
           && Agree(t, if k + 2 == |s.vmas| && s.vmas[k + 1].free then NULL else cur, at)
         else t == s
  {
    var k := IndexOf(s.vmas, id);
    if Gives(s.vmas, id) {
      var b, m, a := s.vmas[..k], s.vmas[k], s.vmas[k + 1..];
      assert s.vmas == b + [m] + a;
      GiveParts(s, b, m, a, cur, at);
    }
  }

  lemma GiveParts(s: Flat, b: seq<Area>, m: Area, a: seq<Area>, cur: nat, at: nat)
    requires Agree(s, cur, at) && s.vmas == b + [m] + a && !m.free && m.end < VMALLOC_END
    ensures a != [] && AreasOk(Freed(b, m, a)) && Removed(s.tree, m.start) == Live(Freed(b, m, a), s.lost)
    ensures TailIs(Freed(b, m, a), if |a| == 1 && a[0].free then NULL else cur, at)
    ensures var l := if LastFree(b, false) then Off(s.lists, b[|b| - 1].id) else s.lists;
      Holding(if a[0].free then Off(l, a[0].id) else l, if |a| == 1 && a[0].free then NULL else cur, at)
  {
    NotLast(b, m, a, cur, at);
    FreedOk(b, m, a, s.lost);
    IdsAround(b, m, a);
    LiveSorted(s.vmas, VMALLOC_START, false, VMALLOC_END, s.lost);
    RemoveLive(b, m, a, s.lost);
    TailAfter(b, m, a, cur, at);
    NoNullId(s.vmas);
    if LastFree(b, false) {
      LastIn(b);
    }
    ListsAfter(s.lists, b, a, cur, at);
  }

  // ---------------------------------------------------------------- whole runs

  /** A request is for a positive number of whole pages. */
  predicate Whole(c: Call) { c.Ask? ==> c.len > 0 && c.len % PAGE == 0 }

  predicate Proper(cs: seq<Call>) { forall i :: 0 <= i < |cs| ==> Whole(cs[i]) }

  lemma CallKeeps(s: Flat, c: Call)
    requires FlatOk(s) && Whole(c)
    ensures FlatOk(Next(s, c))
  {
    var cur, at :| Agree(s, cur, at);
    match c
    case Ask(len, buddy, node) =>
      if buddy !in Ids(s.vmas) {
        AskKeeps(s, cur, at, len, buddy, node);
      }
    case GiveBack(id) => GiveKeeps(s, cur, at, id);
  }

  /** Over every run of proper calls the three views agree, but for areas whose node the tree could
      not get. */
  lemma {:induction false} AlwaysAgree(s: Flat, cs: seq<Call>)
    requires FlatOk(s) && Proper(cs)
    ensures FlatOk(After(s, cs))
    decreases |cs|
  {
    if cs != [] {
      CallKeeps(s, cs[0]);
      AlwaysAgree(Next(s, cs[0]), cs[1..]);
    }
  }

  /** `vmalloc_init`. */
  function Init(first: nat): Flat {
    Flat([Area(first, VMALLOC_START, VMALLOC_END, true)], seq(MAX_VMA_ORDER + 1, i => if i == 19 then [first] else []), [], {})
  }

  lemma {:induction false} NodesGot(s: Flat, cs: seq<Call>)
    requires s.lost == {} && forall i :: 0 <= i < |cs| && cs[i].Ask? ==> cs[i].node != NULL
    ensures After(s, cs).lost == {}
    decreases |cs|
  {
    if cs != [] {
      NodesGot(Next(s, cs[0]), cs[1..]);
    }
  }

  /** From the start, over every run: an ordered, gap-free tiling without adjacent free areas, a
      tree of exactly the live areas whose node it got, all of them if `kmalloc` never failed it,
      and free lists that hold at most the last area. */
  lemma FromInit(first: nat, cs: seq<Call>)
    requires first != NULL && Proper(cs)
    ensures var s := After(Init(first), cs);
      && Tiles(s.vmas, VMALLOC_START, false, VMALLOC_END) && s.tree == Live(s.vmas, s.lost)
      && |s.lists| == MAX_VMA_ORDER + 1
      && (forall i :: 0 <= i < |s.lists| && s.lists[i] != [] ==>
           s.lists[i] == [Last(s.vmas).id] && Last(s.vmas).free && OrderOf(Last(s.vmas)) == i)
      && ((forall i :: 0 <= i < |cs| && cs[i].Ask? ==> cs[i].node != NULL) ==> s.lost == {})
  {
    InitialOk(first);
    assert Agree(Init(first), first, 19);
    AlwaysAgree(Init(first), cs);
    var s := After(Init(first), cs);
    var cur, at :| Agree(s, cur, at);
    if forall i :: 0 <= i < |cs| && cs[i].Ask? ==> cs[i].node != NULL {
      NodesGot(Init(first), cs);
    }
  }

  // ---------------------------------------------------------------- the linked lists follow

  /** The plain lists that the linked ones of a good state stand for. */
  function ListsOf(w: Meaning): seq<seq<nat>> {
    seq(MAX_VMA_ORDER + 1, i => if w.cur != NULL && i == w.at then [w.cur] else [])
  }

  ghost function FlatOf(st: VmState, w: Meaning): Flat { Flat(st.vmas, ListsOf(w), Inorder(w.shape), w.lost) }

  /** `kmalloc` gives a node that is not in use, and a record that no stale link would bring down. */
  predicate Fits(st: VmState, c: Call) {
    c.Ask? && c.buddy !in Ids(st.vmas) ==> c.node !in st.mem && Usable(st.links, st.vmas, c.len, c.buddy)
  }

  lemma FlatAgrees(st: VmState, w: Meaning)
    requires StateOk(st, w)
    ensures Agree(FlatOf(st, w), w.cur, w.at)
  {}

  /** One call on the kernel's variables, which do in all three views what the plain ones do. */
  method Follow(st0: VmState, c: Call, ghost w0: Meaning) returns (st: VmState, ghost w: Meaning)
    requires StateOk(st0, w0) && Whole(c) && Fits(st0, c)
    ensures StateOk(st, w) && FlatOf(st, w) == Next(FlatOf(st0, w0), c)
  {
    st, w := st0, w0;
    FlatAgrees(st0, w0);
    match c
    case Ask(len, buddy, node) =>
      if buddy !in Ids(st.vmas) {
        AskKeeps(FlatOf(st0, w0), w0.cur, w0.at, len, buddy, node);
        var r;
        r, st, w := AllocVma(st, len, buddy, node, w);
        FlatAgrees(st, w);
        OneReading(FlatOf(st, w), Next(FlatOf(st0, w0), c), w.cur, w.at, AtAfter(st0.vmas, w0.cur, w0.at, len, buddy));
      }
    case GiveBack(id) =>
      GiveKeeps(FlatOf(st0, w0), w0.cur, w0.at, id);
      if id in Ids(st.vmas) && !st.vmas[IndexOf(st.vmas, id)].free {
        AreaFacts(st.vmas, IndexOf(st.vmas, id));
        var halted;
        halted, st, w := FreeVma(st, id, w);
        if !halted {
          FlatAgrees(st, w);
          OneReading(FlatOf(st, w), Next(FlatOf(st0, w0), c), w.cur, w.at, w0.at);
        }
      }
  }

  lemma {:induction false} AfterSnoc(s: Flat, cs: seq<Call>, n: nat)
    requires n < |cs|
    ensures After(s, cs[..n + 1]) == Next(After(s, cs[..n]), cs[n])
    decreases n
  {
    if n > 0 {
      assert cs[..n + 1][1..] == cs[1..][..n] && cs[..n][1..] == cs[1..][..n - 1];
      AfterSnoc(Next(s, cs[0]), cs[1..], n - 1);
    } else {
      assert cs[..1][1..] == [];
    }
  }

  /** Any run from `vmalloc_init`, up to the first call whose record is not fit: the linked lists,
      the areas and the tree in memory stand for what the plain machine has. */
  method FollowRun(first: nat, cs: seq<Call>) returns (n: nat, st: VmState, ghost w: Meaning)
    requires first != NULL && Proper(cs)
    ensures n <= |cs| && StateOk(st, w) && FlatOf(st, w) == After(Init(first), cs[..n])
    ensures n < |cs| ==> !Fits(st, cs[n])
  {
    InitialState(first);
    n, st, w := 0, InitState(first), Meaning(first, 19, Leaf);
    assert cs[..0] == [];
    while n < |cs| && Fits(st, cs[n])
      invariant n <= |cs| && StateOk(st, w) && FlatOf(st, w) == After(Init(first), cs[..n])
    {
      AfterSnoc(Init(first), cs, n);
      st, w := Follow(st, cs[n], w);
      n := n + 1;
    }
  }
}

/** mm/vmalloc.c: what a stale link to a record used again leads to.  Right after `alloc_vma` the
    three views agree; at most two calls of `free_vma` later one free list runs into the head of
    another. */
module VmStale {
  import opened List
  import opened RbShape
  import opened VmAreas
  import opened VmLists
  import opened Vmalloc

  lemma IdAt(s: seq<Area>, i: nat)
    requires DistinctIds(s) && i < |s|
    ensures s[i].id in Ids(s) && IndexOf(s, s[i].id) == i
  {
    assert s == s[..i] + [s[i]] + s[i + 1..];
    IdsAround(s[..i], s[i], s[i + 1..]);
    IndexAround(s[..i], s[i], s[i + 1..]);
  }

  /** The areas end with a live area and the free remainder split off it. */
  predicate EndsWith(s: seq<Area>, got: nat, buddy: nat) {
    && |s| >= 2 && s[|s| - 1].id == buddy && s[|s| - 1].free
    && s[|s| - 2].id == got && !s[|s| - 2].free
  }

  /** Area `x` is off the lists and still points at `buddy`, whose list it would tangle. */
  ghost predicate Armed(s: seq<Area>, links: Links<LNode>, x: nat, got: nat, buddy: nat, j: nat, h: nat) {
    && AreasOk(s) && EndsWith(s, got, buddy) && Poisoned(links, Ids(s), got, buddy, j, h)
    && x in Ids(s) && x != got && x != buddy && Points(links, x, buddy, h)
  }

  /** The areas after `free_vma` of the one at position `k`. */
  function FreedAt(s: seq<Area>, k: nat): seq<Area>
    requires k < |s|
  {
    Freed(s[..k], s[k], s[k + 1..])
  }

  /** Freeing an area well before the end leaves the end as it is. */
  lemma FreedEnd(s: seq<Area>, k: nat, got: nat, buddy: nat)
    requires AreasOk(s) && EndsWith(s, got, buddy) && k + 2 < |s| && !s[k].free
    ensures var r := FreedAt(s, k);
      && EndsWith(r, got, buddy) && Ids(r) <= Ids(s) && s[k].id in Ids(r)
      && exists i :: 0 <= i < |r| && r[i].id == s[k].id && r[i].free
  {
    var lo, m, hi := FreedParts(s, k);
    IdAt(s, k);
    MidEnd(s, lo, m, hi, got, buddy);
  }

  lemma FreedParts(s: seq<Area>, k: nat) returns (lo: nat, m: Area, hi: nat)
    requires k + 1 < |s|
    ensures lo <= k < hi <= |s| && hi <= k + 2 && (hi == k + 2 ==> s[k + 1].free)
    ensures m.id == s[k].id && m.free && FreedAt(s, k) == s[..lo] + [m] + s[hi..]
  {
    var p, n := LastFree(s[..k], false), s[k + 1].free;
    lo, hi := if p then k - 1 else k, if n then k + 2 else k + 1;
    m := Area(s[k].id, if p then s[k - 1].start else s[k].start, if n then s[k + 1].end else s[k].end, true);
    assert p ==> s[..k][..k - 1] == s[..k - 1];
    assert s[k + 1..][1..] == s[k + 2..];
  }

  lemma MidEnd(s: seq<Area>, lo: nat, m: Area, hi: nat, got: nat, buddy: nat)
    requires EndsWith(s, got, buddy) && lo < hi && hi + 2 <= |s| && m.id in Ids(s) && m.free
    ensures var r := s[..lo] + [m] + s[hi..];
      && EndsWith(r, got, buddy) && Ids(r) <= Ids(s) && m.id in Ids(r)
      && exists i :: 0 <= i < |r| && r[i].id == m.id && r[i].free
  {
    var r := s[..lo] + [m] + s[hi..];
    assert r[lo] == m && r[|r| - 1] == s[|s| - 1] && r[|r| - 2] == s[|s| - 2];
    IdsAround(s[..lo], m, s[hi..]);
    IdsPart(s, lo, hi);
  }

  lemma IdsPart(s: seq<Area>, i: nat, j: nat)
    requires i <= |s| && j <= |s|
    ensures Ids(s[..i]) <= Ids(s) && Ids(s[j..]) <= Ids(s)
  {
    assert s == s[..i] + s[i..] && s == s[..j] + s[j..];
    IdsJoin(s[..i], s[i..]);
    IdsJoin(s[..j], s[j..]);
  }

  /** One area that is neither the last nor the one before is unlinked, or none is. */
  lemma MaybeStrikes(s: seq<Area>, links0: Links<LNode>, links: Links<LNode>, i: nat, go: bool, x: nat, got: nat, buddy: nat, j: nat, h: nat)
    requires Armed(s, links0, x, got, buddy, j, h) && (go ==> i + 2 < |s|)
    requires if go then Dropped(links0, links, s[i].id) else links == links0
    ensures Armed(s, links, x, got, buddy, j, h)
    ensures RunsInto(links0, j, h) || (go && s[i].id == x) ==> RunsInto(links, j, h)
  {
    if go {
      IdAt(s, i);
      IdAt(s, |s| - 1);
      IdAt(s, |s| - 2);
      Strikes(links0, links, Ids(s), got, buddy, j, h, s[i].id);
    }
  }

  /** Freeing the stale area itself does not disarm it. */
  lemma StaysArmed(s: seq<Area>, links0: Links<LNode>, links: Links<LNode>, k: nat, x: nat, got: nat, buddy: nat, j: nat, h: nat)
    requires Armed(s, links0, x, got, buddy, j, h) && k + 2 < |s| && s[k].id == x && !s[k].free && AreasOk(FreedAt(s, k))
    requires Delisted(links0, links, s[..k], s[k + 1..])
    ensures Armed(FreedAt(s, k), links, x, got, buddy, j, h)
    ensures FreedAt(s, k)[IndexOf(FreedAt(s, k), x)].free
  {
    var mid :| DelistedVia(links0, mid, links, s[..k], s[k + 1..]);
    MaybeStrikes(s, links0, mid, if k > 0 then k - 1 else 0, LastFree(s[..k], false), x, got, buddy, j, h);
    MaybeStrikes(s, mid, links, k + 1, s[k + 1].free, x, got, buddy, j, h);
    FreedEnd(s, k, got, buddy);
    var r := FreedAt(s, k);
    var i :| 0 <= i < |r| && r[i].id == x && r[i].free;
    IdAt(r, i);
  }

  /** Freeing the area after it strikes. */
  lemma NextStrikes(s: seq<Area>, links0: Links<LNode>, links: Links<LNode>, k: nat, x: nat, got: nat, buddy: nat, j: nat, h: nat)
    requires Armed(s, links0, x, got, buddy, j, h) && k + 2 < |s| && s[k].id == x && s[k].free
    requires Delisted(links0, links, s[..k + 1], s[k + 2..])
    ensures RunsInto(links, j, h)
  {
    var mid :| DelistedVia(links0, mid, links, s[..k + 1], s[k + 2..]);
    MaybeStrikes(s, links0, mid, k, true, x, got, buddy, j, h);
    if k + 3 == |s| {
      StrikesHead(mid, links, Ids(s), got, buddy, j, h);
    } else {
      MaybeStrikes(s, mid, links, k + 2, s[k + 2].free, x, got, buddy, j, h);
    }
  }

  /** Where the stale area is, and that a live area follows it if it is free. */
  lemma Place(s: seq<Area>, x: nat, got: nat, buddy: nat)
    requires AreasOk(s) && EndsWith(s, got, buddy) && x in Ids(s) && x != got && x != buddy
    ensures var k := IndexOf(s, x);
      && k + 2 < |s| && s[k].id == x && (s[k].free ==> !s[k + 1].free) && s[k].end < VMALLOC_END && s[k + 1].end < VMALLOC_END
      && s[k + 1].id in Ids(s) && IndexOf(s, s[k + 1].id) == k + 1
  {
    var k := IndexOf(s, x);
    IdAt(s, k + 1);
    Apart(s, k);
    Apart(s, k + 1);
  }

  lemma Apart(s: seq<Area>, k: nat)
    requires AreasOk(s) && k + 1 < |s|
    ensures (s[k].free ==> !s[k + 1].free) && s[k].end < VMALLOC_END
  {
    assert s == s[..k] + [s[k]] + s[k + 1..];
    TilesAround(s[..k], s[k], s[k + 1..], VMALLOC_START, false, VMALLOC_END);
    TilesBound(s[k + 1..][1..], s[k + 1].end, s[k + 1].free, VMALLOC_END);
  }

  /** `free_vma` of the stale area. */
  method FreeStale(st0: VmState, x: nat, ghost w0: Meaning, ghost got: nat, ghost buddy: nat, ghost j: nat, ghost h: nat)
    returns (st: VmState, ghost w: Meaning)
    requires Mapped(st0, w0) && Armed(st0.vmas, st0.links, x, got, buddy, j, h) && !st0.vmas[IndexOf(st0.vmas, x)].free
    ensures Mapped(st, w) && Armed(st.vmas, st.links, x, got, buddy, j, h) && st.vmas[IndexOf(st.vmas, x)].free
  {
    var halted;
    Place(st0.vmas, x, got, buddy);
    halted, st, w := FreeVma(st0, x, w0);
    StaysArmed(st0.vmas, st0.links, st.links, IndexOf(st0.vmas, x), x, got, buddy, j, h);
  }

  /** `free_vma` of the area after it. */
  method FreeAfter(st0: VmState, x: nat, ghost w0: Meaning, ghost got: nat, ghost buddy: nat, ghost j: nat, ghost h: nat)
    returns (st: VmState, ghost w: Meaning)
    requires Mapped(st0, w0) && Armed(st0.vmas, st0.links, x, got, buddy, j, h) && st0.vmas[IndexOf(st0.vmas, x)].free
    ensures Mapped(st, w) && RunsInto(st.links, j, h)
  {
    var halted;
    Place(st0.vmas, x, got, buddy);
    var k := IndexOf(st0.vmas, x);
    halted, st, w := FreeVma(st0, st0.vmas[k + 1].id, w0);
    NextStrikes(st0.vmas, st0.links, st.links, k, x, got, buddy, j, h);
  }

  /** From a state in which area `x` is armed: free it if it is live, then free the area after it.
      No reading of the free lists agrees with the areas after that. */
  method TwoFrees(st0: VmState, x: nat, ghost w0: Meaning, ghost got: nat, ghost buddy: nat, ghost j: nat, ghost h: nat)
    returns (st: VmState, ghost w: Meaning)
    requires Mapped(st0, w0) && Armed(st0.vmas, st0.links, x, got, buddy, j, h) && j <= MAX_VMA_ORDER
    ensures Mapped(st, w) && RunsInto(st.links, j, h) && forall w' :: !Agrees(st, w')
  {
    st, w := st0, w0;
    if !st.vmas[IndexOf(st.vmas, x)].free {
      st, w := FreeStale(st, x, w, got, buddy, j, h);
    }
    st, w := FreeAfter(st, x, w, got, buddy, j, h);
    NoReading(st.links, Ids(st.vmas), j, h);
  }

  /** What an allocation leaves when its record is not usable because of area `x`. */
  lemma Arms(st0: VmState, w0: Meaning, links: Links<LNode>, len: nat, buddy: nat, x: nat)
    requires StateOk(st0, w0) && len % PAGE == 0 && len > 0 && buddy !in Ids(st0.vmas)
    requires Takes(st0.vmas, w0.cur, w0.at, len, buddy) && Splits(st0.vmas, len)
    requires Relinked(st0.links, links, st0.vmas, w0.cur, len, buddy)
    requires x in Ids(st0.vmas) && Of(x) in st0.links && st0.links[Of(x)].prev == Of(buddy)
    requires st0.links[Of(x)].next != Head(OrderOf(Rest(st0.vmas, len, buddy)))
    ensures st0.links[Of(x)].next.Head? && OrderOf(Rest(st0.vmas, len, buddy)) <= MAX_VMA_ORDER
    ensures Armed(AllocTail(st0.vmas, len, buddy), links, x, w0.cur, buddy,
                  OrderOf(Rest(st0.vmas, len, buddy)), st0.links[Of(x)].next.order)
  {
    var s := st0.vmas;
    TailChoice(s, w0.cur, w0.at, len, buddy);
    TailLive(s, w0.cur, w0.at, len, buddy, {});
    Poisons(st0.links, links, Ids(s), w0.cur, w0.at, buddy, OrderOf(Rest(s, len, buddy)), x);
  }

  /** Every allocation whose record is not usable, because area `x` still points at it and at
      another list, leaves the views in agreement, and two calls of `free_vma` undo that. */
  method StaleStrikes(st0: VmState, len: nat, buddy: nat, node: Ref, x: nat, ghost w0: Meaning) returns (st: VmState, ghost w: Meaning)
    requires StateOk(st0, w0) && len % PAGE == 0 && len > 0 && node !in st0.mem && buddy !in Ids(st0.vmas)
    requires Takes(st0.vmas, w0.cur, w0.at, len, buddy) && Splits(st0.vmas, len)
    requires x in Ids(st0.vmas) && Of(x) in st0.links && st0.links[Of(x)].prev == Of(buddy)
    requires st0.links[Of(x)].next != Head(OrderOf(Rest(st0.vmas, len, buddy)))
    ensures Mapped(st, w) && forall w' :: !Agrees(st, w')
    ensures st0.links[Of(x)].next.Head? && RunsInto(st.links, OrderOf(Rest(st0.vmas, len, buddy)), st0.links[Of(x)].next.order)
  {
    var r;
    r, st, w := AllocVma(st0, len, buddy, node, w0);
    Arms(st0, w0, st.links, len, buddy, x);
    st, w := TwoFrees(st, x, w, w0.cur, buddy, OrderOf(Rest(st0.vmas, len, buddy)), st0.links[Of(x)].next.order);
  }
}

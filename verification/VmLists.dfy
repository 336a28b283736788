/** mm/vmalloc.c, the free lists: one list per order of magnitude, threaded through the areas
    by links that `free_vma` leaves stale.  Only one area is ever on a list. */
module VmLists {
  import opened List
  import opened RbShape

  const MAX_VMA_ORDER: nat := 20

  /** A list head, or the `free_node` of an area. */
  datatype LNode = Head(order: nat) | Of(id: nat)

  /** What a walk over the lists sees: the area `cur`, unless it is `NULL`, is alone on list `at`;
      every other list is empty. */
  ghost predicate HeadsOk(links: Links<LNode>, ids: set<nat>, cur: nat, at: nat) {
    && (forall i: nat :: i <= MAX_VMA_ORDER ==>
          && Head(i) in links
          && links[Head(i)].next == if cur != NULL && i == at then Of(cur) else Head(i))
    && (cur != NULL ==> cur in ids && at <= MAX_VMA_ORDER && Of(cur) in links && links[Of(cur)] == Link(Head(at), Head(at)))
  }

  /** Every area has links, and they lead to nodes. */
  ghost predicate Wired(links: Links<LNode>, ids: set<nat>) { forall x :: x in ids ==> HasLinks(links, x) }

  predicate HasLinks(links: Links<LNode>, x: nat) {
    Of(x) in links && links[Of(x)].prev in links && links[Of(x)].next in links
  }

  /** The same, and that the links of the areas off the lists can do no harm: they either both lead
      to the head of a list of larger areas, which will stay empty, or lead to a node whose `next`
      is the same head. */
  ghost predicate ListsOk(links: Links<LNode>, ids: set<nat>, cur: nat, at: nat) {
    HeadsOk(links, ids, cur, at) && forall x :: x in ids && x != cur ==> Stale(links, x, cur, at)
  }

  ghost predicate Stale(links: Links<LNode>, x: nat, cur: nat, at: nat) {
    && Of(x) in links
    && var l := links[Of(x)];
       && l.next.Head? && l.next.order <= MAX_VMA_ORDER
       && ((l.prev == l.next && (cur != NULL ==> l.next.order > at)) ||
           (l.prev.Of? && l.prev in links && links[l.prev].next == l.next))
  }

  /** What off-list areas still say about the address `id`: those that point at it also point at
      the head of list `j`. */
  predicate Clean(links: Links<LNode>, ids: set<nat>, id: nat, j: nat) {
    forall x :: x in ids && Of(x) in links && links[Of(x)].prev == Of(id) ==> links[Of(x)].next == Head(j)
  }

  /** `links` is `links0` after `list_remove` of area `x`. */
  ghost predicate Dropped(links0: Links<LNode>, links: Links<LNode>, x: nat) {
    && Of(x) in links0 && links0[Of(x)].prev in links0 && links0[Of(x)].next in links0
    && links == Unlinked(links0, Of(x))
  }

  /** `links` is `links0` after `list_insert` of `buddy` on list `j` and `list_remove` of `cur`. */
  ghost predicate Handed(links0: Links<LNode>, links: Links<LNode>, cur: nat, buddy: nat, j: nat) {
    && Head(j) in links0 && links0[Head(j)].next in links0
    && Dropped(Linked(links0, Head(j), Of(buddy)), links, cur)
  }

  lemma OkWired(links: Links<LNode>, ids: set<nat>, cur: nat, at: nat)
    requires ListsOk(links, ids, cur, at) && NULL !in ids
    ensures Wired(links, ids)
  {
    forall x | x in ids ensures HasLinks(links, x) {
      assert x != cur ==> Stale(links, x, cur, at);
    }
  }

  lemma UnlinkedWired(links: Links<LNode>, ids: set<nat>, x: nat)
    requires Wired(links, ids) && HasLinks(links, x)
    ensures Wired(Unlinked(links, Of(x)), ids)
  {
    forall y | y in ids ensures HasLinks(Unlinked(links, Of(x)), y) {
      assert HasLinks(links, y);
    }
  }

  /** Unlinking an area that is off the lists, as `free_vma` may do, leaves the lists alone. */
  lemma StaleUnlinked(links: Links<LNode>, ids: set<nat>, cur: nat, at: nat, x: nat)
    requires ListsOk(links, ids, cur, at) && x in ids && x != cur
    ensures HasLinks(links, x) && ListsOk(Unlinked(links, Of(x)), ids - {x}, cur, at)
  {
    assert Stale(links, x, cur, at);
    var links' := Unlinked(links, Of(x));
    forall y | y in ids - {x} && y != cur ensures Stale(links', y, cur, at) {
      assert Stale(links, y, cur, at);
    }
  }

  /** Unlinking the area that is on a list empties that list, and with it all of them. */
  lemma CurUnlinked(links: Links<LNode>, ids: set<nat>, cur: nat, at: nat)
    requires HeadsOk(links, ids, cur, at) && cur != NULL
    ensures HasLinks(links, cur) && HeadsOk(Unlinked(links, Of(cur)), ids, NULL, at)
    ensures ListsOk(links, ids, cur, at) ==> ListsOk(Unlinked(links, Of(cur)), ids, NULL, at)
  {
    if ListsOk(links, ids, cur, at) {
      var links' := Unlinked(links, Of(cur));
      forall y | y in ids && y != NULL ensures Stale(links', y, NULL, at) {
        if y != cur {
          assert Stale(links, y, cur, at);
        }
      }
    }
  }

  /** `alloc_vma` links the remainder `buddy` in before it unlinks the area it came from.  After
      that the remainder is alone on its list, whatever its record was before. */
  lemma Handover(links: Links<LNode>, ids: set<nat>, cur: nat, at: nat, buddy: nat, j: nat)
    requires HeadsOk(links, ids, cur, at) && cur != NULL && buddy != NULL && buddy !in ids && j <= at
    ensures Head(j) in links && links[Head(j)].next in links
    ensures var links1 := Linked(links, Head(j), Of(buddy));
      && HasLinks(links1, cur)
      && HeadsOk(Unlinked(links1, Of(cur)), ids + {buddy}, buddy, j)
      && (Wired(links, ids) ==> Wired(Unlinked(links1, Of(cur)), ids + {buddy}))
  {
    if Wired(links, ids) {
      var links1 := Linked(links, Head(j), Of(buddy));
      forall x | x in ids + {buddy} ensures HasLinks(Unlinked(links1, Of(cur)), x) {
        assert x in ids ==> HasLinks(links, x);
      }
    }
  }

  /** The stale links stay harmless exactly when those that lead to the record of the remainder are
      those of the list it goes on; that record may be one that was freed before. */
  lemma HandoverStale(links: Links<LNode>, links2: Links<LNode>, ids: set<nat>, cur: nat, at: nat, buddy: nat, j: nat)
    requires ListsOk(links, ids, cur, at) && cur != NULL && NULL !in ids
    requires buddy != NULL && buddy !in ids && j <= at && Handed(links, links2, cur, buddy, j)
    ensures Clean(links, ids, buddy, j) ==> ListsOk(links2, ids + {buddy}, buddy, j)
    ensures !Clean(links, ids, buddy, j) ==> forall c, a :: !ListsOk(links2, ids + {buddy}, c, a)
  {
    Handover(links, ids, cur, at, buddy, j);
    if Clean(links, ids, buddy, j) {
      forall y | y in ids + {buddy} && y != buddy ensures Stale(links2, y, buddy, j) {
        if y != cur {
          assert Stale(links, y, cur, at);
        }
      }
    } else {
      var x :| x in ids && Of(x) in links && links[Of(x)].prev == Of(buddy) && links[Of(x)].next != Head(j);
      assert x != cur && Stale(links, x, cur, at);
      assert links2[Head(j)].next == Of(buddy) && links2[Of(x)] == links[Of(x)] && links2[Of(buddy)].next == Head(j);
      forall c, a ensures !ListsOk(links2, ids + {buddy}, c, a) {
        assert ListsOk(links2, ids + {buddy}, c, a) ==> c == buddy;
        assert c == buddy ==> !Stale(links2, x, c, a);
      }
    }
  }

  // ---------------------------------------------------------------- when a stale link comes alive

  /** List `j` leads, past at most one area, to the head of list `h`. */
  predicate RunsInto(links: Links<LNode>, j: nat, h: nat) {
    h != j && Head(j) in links && var n := links[Head(j)].next; n == Head(h) || (n.Of? && n in links && links[n].next == Head(h))
  }

  /** No area makes sense of that. */
  lemma NoReading(links: Links<LNode>, ids: set<nat>, j: nat, h: nat)
    requires RunsInto(links, j, h) && j <= MAX_VMA_ORDER
    ensures forall c, a :: !HeadsOk(links, ids, c, a)
  {}

  /** `list_remove` of area `x` would write the head of list `h` into the links of `buddy`. */
  predicate Points(links: Links<LNode>, x: nat, buddy: nat, h: nat) {
    Of(x) in links && links[Of(x)] == Link(Of(buddy), Head(h))
  }

  /** The links of area `z` while `buddy` is alone on list `j`: `list_remove` changes nothing that
      can be seen, or it writes the head of list `h` into `buddy`. */
  predicate Latent(links: Links<LNode>, z: nat, buddy: nat, j: nat, h: nat) {
    && HasLinks(links, z)
    && var l := links[Of(z)];
       && l.next.Head?
       && (|| (l.prev == l.next && l.next != Head(j)) || Points(links, z, buddy, h)
           || (l.prev.Of? && l.prev != Of(buddy) && links[l.prev].next == l.next))
  }

  /** The remainder `buddy` is on list `j`, and its `next` is the head of that list or of list `h`;
      the area `got` that it came from is left out of account. */
  ghost predicate Poisoned(links: Links<LNode>, ids: set<nat>, got: nat, buddy: nat, j: nat, h: nat) {
    && h != j && Head(j) in links && links[Head(j)].next == Of(buddy) && HasLinks(links, buddy)
    && links[Of(buddy)].prev == Head(j) && (links[Of(buddy)].next == Head(j) || links[Of(buddy)].next == Head(h))
    && forall z :: z in ids && z != got && z != buddy ==> Latent(links, z, buddy, j, h)
  }

  /** A record that is not clean poisons its list. */
  lemma Poisons(links: Links<LNode>, links2: Links<LNode>, ids: set<nat>, cur: nat, at: nat, buddy: nat, j: nat, x: nat)
    requires ListsOk(links, ids, cur, at) && cur != NULL && NULL !in ids
    requires buddy != NULL && buddy !in ids && j <= at && Handed(links, links2, cur, buddy, j)
    requires x in ids && Of(x) in links && links[Of(x)].prev == Of(buddy) && links[Of(x)].next != Head(j)
    ensures x != cur && links[Of(x)].next.Head?
    ensures var h := links[Of(x)].next.order; Poisoned(links2, ids + {buddy}, cur, buddy, j, h) && Points(links2, x, buddy, h)
  {
    assert x != cur && Stale(links, x, cur, at);
    var h := links[Of(x)].next.order;
    forall z | z in ids + {buddy} && z != cur && z != buddy ensures Latent(links2, z, buddy, j, h) {
      assert Stale(links, z, cur, at);
    }
  }

  /** `list_remove` of an area keeps the poison, and one that points at `buddy` lets it out. */
  lemma Strikes(links0: Links<LNode>, links: Links<LNode>, ids: set<nat>, got: nat, buddy: nat, j: nat, h: nat, z: nat)
    requires Poisoned(links0, ids, got, buddy, j, h) && z in ids && z != got && z != buddy && Dropped(links0, links, z)
    ensures Poisoned(links, ids, got, buddy, j, h)
    ensures Points(links0, z, buddy, h) || RunsInto(links0, j, h) ==> RunsInto(links, j, h)
    ensures forall x :: x in ids && x != got && x != buddy && Points(links0, x, buddy, h) ==> Points(links, x, buddy, h)
  {
    assert Latent(links0, z, buddy, j, h);
    forall y | y in ids && y != got && y != buddy
      ensures Latent(links, y, buddy, j, h) && (Points(links0, y, buddy, h) ==> Points(links, y, buddy, h))
    {
      assert Latent(links0, y, buddy, j, h);
    }
  }

  /** `list_remove` of `buddy` itself after that. */
  lemma StrikesHead(links0: Links<LNode>, links: Links<LNode>, ids: set<nat>, got: nat, buddy: nat, j: nat, h: nat)
    requires Poisoned(links0, ids, got, buddy, j, h) && RunsInto(links0, j, h) && Dropped(links0, links, buddy)
    ensures links[Head(j)].next == Head(h) && RunsInto(links, j, h)
  {}
}

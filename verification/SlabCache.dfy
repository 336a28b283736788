/** A whole cache: `kmem_cache_alloc` and `kmem_cache_free` over its pages and two lists. */
module SlabCache {
  import opened Distinct
  import opened Modulo
  import opened Slab

  type Live = map<nat, set<nat>>

  /** `slabs_partial`, `slabs_full`, and the slab pages by page number. */
  datatype Cache = Cache(partial: seq<nat>, full: seq<nat>, pages: map<nat, SlabPage>)

  predicate GoodSize(size: nat) { 0 < size <= PAGE_SIZE && 1 <= Total(size) <= 256 }

  /** Page `q` is on one list, sound, and not empty; on the partial list it has room. */
  ghost predicate Sound(c: Cache, live: Live, size: nat, q: nat)
    requires GoodSize(size)
  {
    && (q in c.pages <==> q in live) && (q in c.pages <==> q in c.partial || q in c.full)
    && !(q in c.partial && q in c.full)
    && (q in c.pages ==> PageOk(c.pages[q], live[q]) && c.pages[q].total == Total(size) && 1 <= c.pages[q].active)
    && (q in c.partial ==> c.pages[q].active < c.pages[q].total)
  }

  ghost predicate CacheOk(c: Cache, live: Live, size: nat) {
    GoodSize(size) && NoDup(c.partial) && NoDup(c.full) && forall q :: Sound(c, live, size, q)
  }

  function LiveOn(live: Live, q: nat): set<nat> { if q in live then live[q] else {} }

  /** `alloc_block`: pop an index; a page without room moves to the full list. */
  function Popped(c: Cache, q: nat): Cache
    requires q in c.pages
  {
    var p := Taken(c.pages[q]);
    if p.active == p.total then Cache(Without(c.partial, q), [q] + c.full, c.pages[q := p])
    else c.(pages := c.pages[q := p])
  }

  /** Page `q` is about to be popped: on the partial list, with room, perhaps still empty. */
  ghost predicate Ready(c: Cache, live: Live, size: nat, q: nat) {
    && GoodSize(size) && NoDup(c.partial) && NoDup(c.full) && (forall x :: x != q ==> Sound(c, live, size, x))
    && q in c.partial && q !in c.full && q in c.pages
    && PageOk(c.pages[q], LiveOn(live, q)) && c.pages[q].total == Total(size) && c.pages[q].active < c.pages[q].total
  }

  /** The partial list that `kmem_cache_alloc` takes its page from. */
  function Offered(c: Cache, page: nat): (r: seq<nat>)
    ensures r != []
  {
    if c.partial == [] then [page] else c.partial
  }

  lemma PopOk(c: Cache, live: Live, size: nat, q: nat)
    requires Ready(c, live, size, q)
    ensures var x := c.pages[q].freelist[c.pages[q].active];
      && x !in LiveOn(live, q) && x < Total(size)
      && CacheOk(Popped(c, q), live[q := LiveOn(live, q) + {x}], size)
  {
    var p := c.pages[q];
    var x := p.freelist[p.active];
    TakeOk(p, LiveOn(live, q));
    WithoutNoDup(c.partial, q);
    var c', live' := Popped(c, q), live[q := LiveOn(live, q) + {x}];
    forall y ensures Sound(c', live', size, y) {
      if y != q {
        assert Sound(c, live, size, y);
      }
    }
  }

  /** `free_block`: push the index; an empty page leaves the cache. */
  function Pushed(c: Cache, q: nat, x: nat): Cache
    requires q in c.pages && 0 < c.pages[q].active <= |c.pages[q].freelist|
  {
    var p := Returned(c.pages[q], x);
    if p.active == 0 then Cache(Without(c.partial, q), Without(c.full, q), c.pages - {q})
    else c.(pages := c.pages[q := p])
  }

  function Freed(live: Live, q: nat, x: nat): Live {
    if LiveOn(live, q) - {x} == {} then live - {q} else live[q := LiveOn(live, q) - {x}]
  }

  lemma PushOk(c: Cache, live: Live, size: nat, q: nat, x: nat)
    requires CacheOk(c, live, size) && q in live && x in live[q]
    ensures q in c.pages && 0 < c.pages[q].active <= |c.pages[q].freelist|
    ensures CacheOk(Pushed(c, q, x), Freed(live, q, x), size)
    ensures live[q] == {x} <==> c.pages[q].active == 1
  {
    assert Sound(c, live, size, q);
    ReturnOk(c.pages[q], live[q], x);
    WithoutNoDup(c.partial, q);
    WithoutNoDup(c.full, q);
    var c', live' := Pushed(c, q, x), Freed(live, q, x);
    assert LiveOn(live, q) - {x} == {} <==> c.pages[q].active == 1;
    assert live[q] == {x} <==> live[q] - {x} == {};
    forall y ensures Sound(c', live', size, y) {
      assert Sound(c, live, size, y);
    }
  }

  /** `obj_to_index` undoes `index_to_obj`. */
  lemma IndexRoundTrip(size: nat, index: nat)
    requires size > 0
    ensures size * index / size == index
  {
    MulDiv(index, size, 0);
    assert index * size + 0 == size * index;
  }

  lemma {:induction false} Steps(size: nat, x: nat, y: nat)
    requires x < y
    ensures size * x + size <= size * y
    decreases y
  {
    if x + 1 < y {
      Steps(size, x, y - 1);
      assert size * y == size * (y - 1) + size;
    } else {
      assert size * (x + 1) == size * x + size;
    }
  }

  lemma InPage(size: nat, x: nat)
    requires GoodSize(size) && x < Total(size)
    ensures size * x + size <= PAGE_SIZE - Reserved(size)
  {
    Layout(size);
    Steps(size, x, Total(size));
  }

  /** Objects of a page are apart from each other and from the index stack. */
  lemma ObjectsApart(size: nat, x: nat, y: nat)
    requires GoodSize(size) && x < y < Total(size)
    ensures size * x + size <= size * y && size * y + size <= PAGE_SIZE - Reserved(size)
  {
    InPage(size, y);
    Steps(size, x, y);
  }

  class KmemCache {
    const size: nat
    var cache: Cache
    ghost var live: Live

    ghost predicate Valid()
      reads this
    {
      CacheOk(cache, live, size)
    }

    /** `kmem_cache_create` */
    constructor (size: nat)
      requires GoodSize(size)
      ensures Valid() && this.size == size && live == map[]
    {
      this.size := size;
      cache := Cache([], [], map[]);
      live := map[];
    }

    /** `kmem_cache_alloc`, with `page` what `alloc_page` gives if it is asked.  The object was not
        live, lies below the index stack, and is live now; nothing else changes.  A new page is
        taken if and only if the partial list is empty, even if a page on the full list has room. */
    method Alloc(page: nat) returns (q: nat, offset: nat, ghost x: nat)
      requires Valid() && page !in live
      modifies this
      ensures Valid() && offset == size * x && x < Total(size) && offset + size <= PAGE_SIZE - Reserved(size)
      ensures x !in LiveOn(old(live), q) && live == old(live)[q := LiveOn(old(live), q) + {x}]
      ensures q !in old(live) <==> old(cache.partial) == []
      ensures var was, room := Offered(old(cache), page), |LiveOn(old(live), q)| + 1 < Total(size);
        && q == was[0]
        && cache.partial == (if room then was else Without(was, q))
        && cache.full == if room then old(cache.full) else [q] + old(cache.full)
    {
      var c := cache;
      if c.partial == [] {
        q := page;
        var p := InitPage(size);
        FreshPage(p);
        assert Sound(c, live, size, q);
        c := Cache([q] + c.partial, c.full, c.pages[q := p]);
        forall y | y != q ensures Sound(c, live, size, y) {
          assert Sound(cache, live, size, y);
        }
      } else {
        q := c.partial[0];
        assert Sound(c, live, size, q);
      }
      assert Ready(c, live, size, q);
      assert c.pages[q].active < c.pages[q].total;
      PopOk(c, live, size, q);
      var index := c.pages[q].freelist[c.pages[q].active];
      x := index;
      offset := size * index;
      InPage(size, index);
      cache := Popped(c, q);
      live := live[q := LiveOn(live, q) + {x}];
    }

    /** `kmem_cache_free` of a live object; its asserts hold. */
    method Free(q: nat, offset: nat, ghost x: nat)
      requires Valid() && q in live && x in live[q] && offset == size * x
      modifies this
      ensures Valid() && live == Freed(old(live), q, x)
      ensures var gone := old(live)[q] == {x};
        && cache.partial == (if gone then Without(old(cache.partial), q) else old(cache.partial))
        && cache.full == if gone then Without(old(cache.full), q) else old(cache.full)
    {
      PushOk(cache, live, size, q, x);
      IndexRoundTrip(size, x);
      var index := offset / size;
      assert cache.pages[q].active > 0;
      cache := Pushed(cache, q, index);
      live := Freed(live, q, x);
    }
  }

  /** A page on the full list is passed over, whether or not it has room by now. */
  lemma FullPassed(c: Cache, live: Live, size: nat, page: nat, q: nat)
    requires CacheOk(c, live, size) && q in c.full && page !in live
    ensures Offered(c, page)[0] != q
  {
    assert Sound(c, live, size, q);
    assert c.partial != [] ==> c.partial[0] in c.partial;
  }

  lemma TwoObjects()
    ensures GoodSize(2000) && Total(2000) == 2
  {}

  /** Two objects fill page `first`; one is given back, and the next still comes from page
      `second`, though page `first` has room. */
  method PassedOver(first: nat, second: nat) returns (q: nat, ghost live: Live)
    requires first != second
    ensures q == second && first in live && |live[first]| < Total(2000)
  {
    TwoObjects();
    var cache := new KmemCache(2000);
    var q1, offset1, q2, offset2, offset;
    ghost var x1, x2, x;
    q1, offset1, x1 := cache.Alloc(first);
    q2, offset2, x2 := cache.Alloc(second);
    cache.Free(q1, offset1, x1);
    live := cache.live;
    q, offset, x := cache.Alloc(second);
  }
}

/** mm/slab.c: object caches that keep, at the end of each page, a stack of free object indices in
    single bytes. */
module Slab {
  import opened Bits
  import opened Distinct

  const PAGE_SIZE: nat := 4096

  /** Bytes that `slab_page_init` sets aside for the index stack. */
  function Reserved(size: nat): nat
    requires size > 0
  {
    PAGE_SIZE / size
  }

  /** Objects in a page. */
  function Total(size: nat): nat
    requires 0 < size <= PAGE_SIZE
  {
    (PAGE_SIZE - Reserved(size)) / size
  }

  lemma Bounds(x: nat, n: nat)
    requires n > 0
    ensures (x / n) * n <= x < (x / n) * n + n
  {
    assert x == n * (x / n) + x % n;
  }

  lemma Cancel(a: nat, b: nat, n: nat)
    requires a * n < b * n
    ensures a < b
  {
    assert a >= b ==> (a - b) * n + b * n == a * n;
  }

  /** The index stack has as many bytes as a page would hold objects, and the page holds as many
      objects as fit beside it. */
  predicate Fills(size: nat, reserved: nat, total: nat) {
    && reserved * size <= PAGE_SIZE < reserved * size + size
    && total * size + reserved <= PAGE_SIZE < total * size + reserved + size
  }

  /** No other numbers do. */
  lemma FillsUnique(size: nat, r: nat, t: nat, r': nat, t': nat)
    requires Fills(size, r, t) && Fills(size, r', t')
    ensures r == r' && t == t'
  {
    assert (r + 1) * size == r * size + size && (r' + 1) * size == r' * size + size;
    Cancel(r, r' + 1, size);
    Cancel(r', r + 1, size);
    assert (t + 1) * size == t * size + size && (t' + 1) * size == t' * size + size;
    Cancel(t, t' + 1, size);
    Cancel(t', t + 1, size);
  }

  /** Objects and index stack fill the page without overlapping, and the stack has room for every
      object.  There is room for at least one object exactly when it is neither a single byte nor
      a whole page. */
  lemma Layout(size: nat)
    requires 0 < size <= PAGE_SIZE
    ensures Fills(size, Reserved(size), Total(size)) && Total(size) <= Reserved(size) <= PAGE_SIZE
    ensures Total(size) >= 1 <==> 1 < size < PAGE_SIZE
  {
    Bounds(PAGE_SIZE, size);
    Halves(size, Reserved(size));
    Bounds(PAGE_SIZE - Reserved(size), size);
    Shares(size, Reserved(size), Total(size));
  }

  lemma Shares(size: nat, r: nat, t: nat)
    requires 0 < size && r * size <= PAGE_SIZE < r * size + size && t * size <= PAGE_SIZE - r < t * size + size
    ensures t <= r && (t >= 1 <==> size + r <= PAGE_SIZE)
  {
    assert (r + 1) * size == r * size + size;
    Cancel(t, r + 1, size);
    assert t >= 1 ==> t * size >= size;
  }

  /** Of two factors of at most a page, both above one, neither is more than half a page. */
  lemma Halves(size: nat, r: nat)
    requires 0 < size <= PAGE_SIZE && r * size <= PAGE_SIZE < r * size + size
    ensures 1 <= r <= PAGE_SIZE && (size + r <= PAGE_SIZE <==> 1 < size < PAGE_SIZE)
  {
    assert r == 0 ==> r * size == 0;
    assert r >= 2 ==> r * size >= 2 * size;
    assert size >= 2 ==> r * size >= 2 * r;
  }

  // ---------------------------------------------------------------- one page

  /** `freelist`, `active` and `total` of `struct page`. */
  datatype SlabPage = SlabPage(freelist: seq<nat>, active: nat, total: nat)

  /** The part of the stack that is free. */
  function FreeSlots(p: SlabPage): seq<nat>
    requires p.active <= p.total <= |p.freelist|
  {
    p.freelist[p.active..p.total]
  }

  predicate Listed(p: SlabPage, live: set<nat>, x: nat)
    requires p.active <= p.total <= |p.freelist|
  {
    x in FreeSlots(p) <==> x < p.total && x !in live
  }

  /** The free part of the stack lists exactly the objects not live, each once. */
  ghost predicate PageOk(p: SlabPage, live: set<nat>) {
    && p.active <= p.total <= |p.freelist|
    && NoDup(FreeSlots(p)) && (forall x :: Listed(p, live, x))
    && (forall x :: x in live ==> x < p.total) && |live| == p.active
  }

  /** `slab_page_init`: bytes, so the indices are taken modulo 256. */
  method InitPage(size: nat) returns (p: SlabPage)
    requires 0 < size <= PAGE_SIZE
    ensures p.active == 0 && p.total == Total(size) <= |p.freelist| == Reserved(size) && Fills(size, |p.freelist|, p.total)
    ensures forall i :: 0 <= i < |p.freelist| ==> p.freelist[i] == i % 256
  {
    Layout(size);
    var freelist: seq<nat>, i := [], 0;
    while i < Reserved(size)
      invariant 0 <= i <= Reserved(size) && |freelist| == i
      invariant forall k :: 0 <= k < i ==> freelist[k] == k % 256
    {
      freelist := freelist + [i % 256];
      i := i + 1;
    }
    p := SlabPage(freelist, 0, Total(size));
  }

  /** A fresh page lists its objects properly exactly when there are at most 256 of them: with
      more, the first object is listed twice. */
  lemma FreshPage(p: SlabPage)
    requires p.active == 0 && p.total <= |p.freelist|
    requires forall i :: 0 <= i < |p.freelist| ==> p.freelist[i] == i % 256
    ensures PageOk(p, {}) <==> p.total <= 256
  {
    var f := FreeSlots(p);
    if p.total <= 256 {
      forall x: nat ensures Listed(p, {}, x) {
        assert x < p.total ==> f[x] == x;
      }
    } else {
      assert f[0] == 0 && f[256] == 0;
    }
  }

  /** `n` objects popped off a fresh page and none given back: they are all different exactly when
      there are at most 256 of them; the next is the first one again, while it is live. */
  method Drain(size: nat, n: nat) returns (objects: seq<nat>)
    requires 0 < size <= PAGE_SIZE && n <= Total(size)
    ensures |objects| == n && (NoDup(objects) <==> n <= 256) && forall i :: 0 <= i < n ==> objects[i] == i % 256
    ensures n > 256 ==> objects[256] == objects[0]
  {
    var p := InitPage(size);
    objects := [];
    while |objects| < n
      invariant |objects| == p.active <= n <= p.total <= |p.freelist|
      invariant forall i :: 0 <= i < |p.freelist| ==> p.freelist[i] == i % 256
      invariant forall i :: 0 <= i < |objects| ==> objects[i] == i % 256
    {
      objects := objects + [p.freelist[p.active]];
      p := Taken(p);
    }
    assert n <= 256 ==> forall i :: 0 <= i < n ==> objects[i] == i;
    assert n > 256 ==> objects[0] == 0 == objects[256];
  }

  /** Objects in a page of each of the kernel's own caches, of 8 to 1024 bytes. */
  const KMALLOC_COUNTS: seq<nat> := [448, 240, 124, 63, 31, 15, 7, 3]

  /** All but the first are small enough. */
  lemma KmallocCaches(i: nat)
    requires i <= 7
    ensures var size := 8 * Pow2(i);
      size <= PAGE_SIZE && Fills(size, 512 / Pow2(i), KMALLOC_COUNTS[i]) && Total(size) == KMALLOC_COUNTS[i]
    ensures Total(8 * Pow2(i)) <= 256 <==> i != 0
  {
    assert Pow2(0) == 1 && Pow2(1) == 2 && Pow2(2) == 4 && Pow2(3) == 8;
    assert Pow2(4) == 16 && Pow2(5) == 32 && Pow2(6) == 64 && Pow2(7) == 128;
    Layout(8 * Pow2(i));
  }

  // ---------------------------------------------------------------- alloc_block and free_block

  function Taken(p: SlabPage): SlabPage { p.(active := p.active + 1) }

  lemma Tail(f: seq<nat>)
    requires f != [] && NoDup(f)
    ensures NoDup(f[1..]) && forall y :: y in f[1..] <==> y in f && y != f[0]
  {
    assert f == [f[0]] + f[1..];
  }

  /** The object handed out was not live. */
  lemma TakeOk(p: SlabPage, live: set<nat>)
    requires PageOk(p, live) && p.active < p.total
    ensures var x := p.freelist[p.active];
      x !in live && x < p.total && PageOk(Taken(p), live + {x})
  {
    var x, f := p.freelist[p.active], FreeSlots(p);
    assert f[0] == x && FreeSlots(Taken(p)) == f[1..];
    Tail(f);
    assert Listed(p, live, x);
    forall y: nat ensures Listed(Taken(p), live + {x}, y) {
      assert Listed(p, live, y);
    }
  }

  /** Storing an index in a byte. */
  function SetByte(f: seq<nat>, i: nat, x: nat): seq<nat>
    requires i < |f|
  {
    f[i := x % 256]
  }

  /** `free_block` pushes the index back. */
  function Returned(p: SlabPage, x: nat): SlabPage
    requires 0 < p.active <= |p.freelist|
  {
    p.(freelist := SetByte(p.freelist, p.active - 1, x), active := p.active - 1)
  }

  /** The object given back will be the first to be handed out. */
  lemma ReturnOk(p: SlabPage, live: set<nat>, x: nat)
    requires PageOk(p, live) && x in live && p.total <= 256
    ensures p.active > 0 && PageOk(Returned(p, x), live - {x}) && Taken(Returned(p, x)).active == p.active
    ensures Returned(p, x).freelist[Returned(p, x).active] == x
  {
    assert |live - {x}| == |live| - 1;
    var p', f := Returned(p, x), FreeSlots(p);
    assert x % 256 == x;
    assert FreeSlots(p')[0] == x && FreeSlots(p')[1..] == f;
    assert FreeSlots(p') == [x] + f;
    assert Listed(p, live, x);
    forall y: nat ensures Listed(p', live - {x}, y) {
      assert Listed(p, live, y);
    }
  }
}

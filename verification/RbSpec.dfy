/** What the interval tree means: an ascending sequence of disjoint ranges, searched,
    extended and thinned by linear scans. */
module RbSpec {
  import opened RbShape

  predicate Contains(item: Item, key: nat) { item.start <= key <= item.end }

  predicate Overlaps(item: Item, start: nat, end: nat) { item.start <= end && start <= item.end }

  predicate AnyOverlap(s: seq<Item>, start: nat, end: nat) {
    exists i :: 0 <= i < |s| && Overlaps(s[i], start, end)
  }

  /** Position of the first range that holds `key`, or `|s|`. */
  function Scan(s: seq<Item>, key: nat): (i: nat)
    ensures i <= |s| && (i < |s| ==> Contains(s[i], key))
    ensures forall j :: 0 <= j < i ==> !Contains(s[j], key)
  {
    if s == [] || Contains(s[0], key) then 0 else 1 + Scan(s[1..], key)
  }

  /** Position of the first range that lies entirely above `end`, or `|s|`. */
  function Slot(s: seq<Item>, end: nat): (k: nat)
    ensures k <= |s| && (k < |s| ==> end < s[k].start)
    ensures forall j :: 0 <= j < k ==> s[j].start <= end
  {
    if s == [] || end < s[0].start then 0 else 1 + Slot(s[1..], end)
  }

  function Inserted(s: seq<Item>, item: Item): seq<Item> {
    var k := Slot(s, item.end);
    s[..k] + [item] + s[k..]
  }

  /** Without the range that holds `key`. */
  function Removed(s: seq<Item>, key: nat): seq<Item> {
    var i := Scan(s, key);
    if i == |s| then s else s[..i] + s[i + 1..]
  }

  /** Around any range of a sorted sequence, the others lie entirely below or above it. */
  lemma SortedMid(b: seq<Item>, x: Item, a: seq<Item>)
    requires Sorted(b + [x] + a)
    ensures x.start <= x.end
    ensures forall y :: y in b ==> y.end < x.start
    ensures forall y :: y in a ==> x.end < y.start
  {
    var s := b + [x] + a;
    assert s[|b|] == x;
    assert forall i :: 0 <= i < |b| ==> s[i] == b[i];
    assert forall i :: 0 <= i < |a| ==> s[|b| + 1 + i] == a[i];
  }

  lemma SortedItem(s: seq<Item>, x: Item)
    requires Sorted(s) && x in s
    ensures x.start <= x.end
  {}

  /** Whatever separates a sequence around `item` is where `item` goes. */
  lemma InsertedBetween(b: seq<Item>, a: seq<Item>, item: Item)
    requires item.start <= item.end
    requires forall y :: y in b ==> y.start <= y.end < item.start
    requires forall y :: y in a ==> item.end < y.start
    ensures Inserted(b + a, item) == b + [item] + a
  {
    var k := Slot(b + a, item.end);
    assert forall j :: 0 <= j < |b| ==> (b + a)[j] == b[j];
    assert a != [] ==> (b + a)[|b|] == a[0];
    assert k == |b|;
  }

  lemma NoneOverlaps(b: seq<Item>, a: seq<Item>, item: Item)
    requires forall y :: y in b ==> y.end < item.start
    requires forall y :: y in a ==> item.end < y.start
    ensures !AnyOverlap(b + a, item.start, item.end)
  {
    forall i | 0 <= i < |b + a| ensures !Overlaps((b + a)[i], item.start, item.end) {
      assert (b + a)[i] in b || (b + a)[i] in a;
    }
  }

  /** A range that overlaps nothing goes in, and the ranges stay ascending and disjoint. */
  lemma InsertedSorted(s: seq<Item>, item: Item)
    requires Sorted(s) && item.start <= item.end && !AnyOverlap(s, item.start, item.end)
    ensures Sorted(Inserted(s, item))
  {
    var k := Slot(s, item.end);
    forall i | 0 <= i < k ensures s[i].end < item.start {
      assert !Overlaps(s[i], item.start, item.end);
    }
    forall j | k <= j < |s| ensures item.end < s[j].start {
      assert s[k].start <= s[j].start;
    }
    SortedAround(s, k, item);
  }

  lemma SortedAround(s: seq<Item>, k: nat, item: Item)
    requires k <= |s| && Sorted(s) && item.start <= item.end
    requires forall i :: 0 <= i < k ==> s[i].end < item.start
    requires forall i :: k <= i < |s| ==> item.end < s[i].start
    ensures Sorted(s[..k] + [item] + s[k..])
  {
    var r := s[..k] + [item] + s[k..];
    assert forall i :: 0 <= i < |r| ==> r[i] == if i < k then s[i] else if i == k then item else s[i - 1];
  }

  lemma SortedWithout(s: seq<Item>, k: nat)
    requires k < |s| && Sorted(s)
    ensures Sorted(s[..k] + s[k + 1..])
  {
    var r := s[..k] + s[k + 1..];
    assert forall i :: 0 <= i < |r| ==> r[i] == if i < k then s[i] else s[i + 1];
  }

  /** In a sorted sequence at most one range holds a key, so the scan finds any that does. */
  lemma ScanFinds(b: seq<Item>, item: Item, a: seq<Item>, key: nat)
    requires Sorted(b + [item] + a) && Contains(item, key)
    ensures Scan(b + [item] + a, key) == |b|
  {
    SortedMid(b, item, a);
    ScanSkips(b, item, a, key);
  }

  lemma {:induction false} ScanSkips(b: seq<Item>, item: Item, a: seq<Item>, key: nat)
    requires Contains(item, key) && forall y :: y in b ==> y.end < key
    ensures Scan(b + [item] + a, key) == |b|
  {
    if b != [] {
      ScanSkips(b[1..], item, a, key);
      assert (b + [item] + a)[1..] == b[1..] + [item] + a;
    }
  }

  lemma RemovedMid(b: seq<Item>, item: Item, a: seq<Item>, key: nat)
    requires Scan(b + [item] + a, key) == |b|
    ensures Removed(b + [item] + a, key) == b + a
  {
    var s := b + [item] + a;
    assert s[..|b|] == b && s[|b| + 1..] == a;
  }

  /** Taking out a range that was just put in gives back the ranges there were before. */
  lemma RemovedInserted(s: seq<Item>, item: Item, key: nat)
    requires Sorted(s) && item.start <= item.end && !AnyOverlap(s, item.start, item.end)
    requires Contains(item, key)
    ensures Removed(Inserted(s, item), key) == s
  {
    InsertedSorted(s, item);
    RemovedAround(s[..Slot(s, item.end)], item, s[Slot(s, item.end)..], key);
    assert s[..Slot(s, item.end)] + s[Slot(s, item.end)..] == s;
  }

  lemma RemovedAround(b: seq<Item>, item: Item, a: seq<Item>, key: nat)
    requires Sorted(b + [item] + a) && Contains(item, key)
    ensures Removed(b + [item] + a, key) == b + a
  {
    ScanFinds(b, item, a, key);
    RemovedMid(b, item, a, key);
  }
}

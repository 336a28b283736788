/** include/list.h: circular doubly linked lists threaded through other structures.
    A list is a ring of links: its head followed by its members. */
module List {

  datatype Link<T> = Link(prev: T, next: T)

  /** Every link in memory, by the address of the node that holds it. */
  type Links<!T(==)> = map<T, Link<T>>

  ghost predicate Distinct<T>(r: seq<T>) {
    forall i, j :: 0 <= i < j < |r| ==> r[i] != r[j]
  }

  /** `r[i]` and `r[j]` are neighbours. */
  ghost predicate Joined<T>(mem: Links<T>, x: T, y: T) {
    x in mem && y in mem && mem[x].next == y && mem[y].prev == x
  }

  /** The links spell out the ring `r`, whose first node is the head. */
  ghost predicate Ring<T>(mem: Links<T>, r: seq<T>) {
    && |r| > 0 && Distinct(r) && Joined(mem, r[|r| - 1], r[0])
    && forall i :: 0 <= i < |r| - 1 ==> Joined(mem, r[i], r[i + 1])
  }

  method Init<T(==)>(mem0: Links<T>, head: T) returns (mem: Links<T>)
    ensures Ring(mem, [head]) && forall n :: n in mem0 && n != head ==> n in mem && mem[n] == mem0[n]
  {
    mem := mem0[head := Link(head, head)];
  }

  /** The node after the first one, going round. */
  ghost function Second<T>(r: seq<T>): T
    requires |r| > 0
  {
    if |r| == 1 then r[0] else r[1]
  }

  lemma Neighbours<T>(mem: Links<T>, r: seq<T>)
    requires Ring(mem, r)
    ensures Joined(mem, r[0], Second(r)) && Joined(mem, r[|r| - 1], r[0])
  {
    assert |r| > 1 ==> Joined(mem, r[0], r[0 + 1]);
  }

  /** The writes of `list_insert` and of `list_remove`, whatever the links are. */
  function Linked<T>(mem: Links<T>, cur: T, node: T): Links<T>
    requires cur in mem && mem[cur].next in mem
  {
    var mem1 := mem[mem[cur].next := mem[mem[cur].next].(prev := node)];
    var mem2 := mem1[node := Link(cur, mem1[cur].next)];
    mem2[cur := mem2[cur].(next := node)]
  }

  function Unlinked<T>(mem: Links<T>, node: T): Links<T>
    requires node in mem && mem[node].prev in mem && mem[node].next in mem
  {
    var mem1 := mem[mem[node].prev := mem[mem[node].prev].(next := mem[node].next)];
    mem1[mem1[node].next := mem1[mem1[node].next].(prev := mem1[node].prev)]
  }

  /** Removing a node once more, after it was removed as the only member of a list, empties
      that list, whatever it holds by then. */
  lemma StaleRemove<T>(mem: Links<T>, head: T, node: T)
    requires head in mem && node in mem && node != head && mem[node] == Link(head, head)
    ensures Unlinked(mem, node) == mem[head := Link(head, head)] && Ring(Unlinked(mem, node), [head])
  {
    assert Joined(Unlinked(mem, node), head, head);
  }

  /** `list_insert`: `node` goes right after `cur`. */
  method Insert<T(==)>(mem0: Links<T>, cur: T, node: T, ghost r: seq<T>) returns (mem: Links<T>)
    requires Ring(mem0, r) && cur == r[0] && node !in r
    ensures Ring(mem, [cur, node] + r[1..]) && cur in mem0 && mem0[cur].next in mem0 && mem == Linked(mem0, cur, node)
    ensures forall n :: n in mem0 && n !in r && n != node ==> n in mem && mem[n] == mem0[n]
  {
    Neighbours(mem0, r);
    mem := mem0;
    mem := mem[mem[cur].next := mem[mem[cur].next].(prev := node)];
    mem := mem[node := Link(cur, mem[cur].next)];
    mem := mem[cur := mem[cur].(next := node)];
    ghost var t := [cur, node] + r[1..];
    assert forall i :: 2 <= i < |t| ==> t[i] == r[i - 1];
    forall i | 0 <= i < |t| - 1 ensures Joined(mem, t[i], t[i + 1]) {
      if i >= 2 {
        assert Joined(mem0, r[i - 1], r[i - 1 + 1]);
      }
    }
  }

  /** `list_insert_before`: `node` goes right before `cur`, which is the tail when `cur` is the head. */
  method InsertBefore<T(==)>(mem0: Links<T>, cur: T, node: T, ghost r: seq<T>) returns (mem: Links<T>)
    requires Ring(mem0, r) && cur == r[0] && node !in r
    ensures Ring(mem, r + [node])
    ensures forall n :: n in mem0 && n !in r && n != node ==> n in mem && mem[n] == mem0[n]
  {
    Neighbours(mem0, r);
    mem := mem0;
    mem := mem[mem[cur].prev := mem[mem[cur].prev].(next := node)];
    mem := mem[node := Link(mem[cur].prev, cur)];
    mem := mem[cur := mem[cur].(prev := node)];
    ghost var t := r + [node];
    forall i | 0 <= i < |t| - 1 ensures Joined(mem, t[i], t[i + 1]) {
      if i < |r| - 1 {
        assert Joined(mem0, r[i], r[i + 1]);
      }
    }
  }

  /** `list_remove`: the two neighbours are joined; the node keeps its own, now stale, links. */
  method Remove<T(==)>(mem0: Links<T>, node: T, ghost r: seq<T>) returns (mem: Links<T>)
    requires Ring(mem0, r) && |r| > 1 && node == r[0]
    ensures Ring(mem, r[1..]) && node in mem && mem[node] == mem0[node]
    ensures node in mem0 && mem0[node].prev in mem0 && mem0[node].next in mem0 && mem == Unlinked(mem0, node)
    ensures forall n :: n in mem0 && n !in r ==> n in mem && mem[n] == mem0[n]
  {
    Neighbours(mem0, r);
    mem := mem0;
    mem := mem[mem[node].prev := mem[mem[node].prev].(next := mem[node].next)];
    mem := mem[mem[node].next := mem[mem[node].next].(prev := mem[node].prev)];
    ghost var t := r[1..];
    assert forall i :: 0 <= i < |t| ==> t[i] == r[i + 1];
    forall i | 0 <= i < |t| - 1 ensures Joined(mem, t[i], t[i + 1]) {
      assert Joined(mem0, r[i + 1], r[i + 1 + 1]);
    }
  }

  /** `list_empty`. */
  lemma EmptyIff<T>(mem: Links<T>, r: seq<T>)
    requires Ring(mem, r)
    ensures mem[r[0]].next == r[0] <==> |r| == 1
  {
    Neighbours(mem, r);
  }

  /** `list_size`: the loop ends, and counts the members. */
  method Size<T(==)>(mem: Links<T>, head: T, ghost r: seq<T>) returns (size: nat)
    requires Ring(mem, r) && head == r[0]
    ensures size == |r| - 1
  {
    Neighbours(mem, r);
    var node := mem[head].next;
    size := 0;
    while node != head
      invariant 0 <= size <= |r| - 1
      invariant node == if size == |r| - 1 then head else r[size + 1]
      decreases |r| - size
    {
      assert Joined(mem, r[size + 1], if size + 1 == |r| - 1 then r[0] else r[size + 1 + 1]);
      node := mem[node].next;
      size := size + 1;
    }
  }
}

/** libs/queue.c: a ring that grows by unwrapping itself into an array twice as large. */
module Queue {
  import opened Modulo
  import opened RingWindow

  const MIN_CAPACITY: nat := 8
  const ENOMEM: int := 12
  const ENOENT: int := 2

  /** The number of elements between two ring indices. */
  function Count(front: nat, rear: nat, capacity: nat): nat
    requires front < capacity
  {
    if rear >= front then rear - front else rear + capacity - front
  }

  /** `queue_size` */
  method QueueSize(front: nat, rear: nat, capacity: nat) returns (n: nat)
    requires front < capacity && rear < capacity
    ensures n == Count(front, rear, capacity)
  {
    n := (rear + capacity - front) % capacity;
    if rear >= front {
      WrapMod(rear + capacity - front, capacity);
    } else {
      SmallMod(rear + capacity - front, capacity);
    }
  }

  lemma NextIs(x: nat, capacity: nat)
    requires x < capacity
    ensures (x + 1) % capacity == Wrap(x + 1, capacity)
  {
    if x + 1 < capacity {
      SmallMod(x + 1, capacity);
    } else {
      WrapMod(x + 1, capacity);
    }
  }

  /** `queue_full`: one slot is always left free. */
  method QueueFull(front: nat, rear: nat, capacity: nat) returns (full: bool)
    requires front < capacity && rear < capacity
    ensures full <==> Count(front, rear, capacity) == capacity - 1
  {
    full := (rear + 1) % capacity == front;
    NextIs(rear, capacity);
  }

  /** How `front` and `rear` advance. */
  method Advance(x: nat, capacity: nat) returns (y: nat)
    requires x < capacity
    ensures y == Wrap(x + 1, capacity)
  {
    y := (x + 1) % capacity;
    NextIs(x, capacity);
  }

  class Queue<T(0)> {
    var base: array<T>
    var front: nat
    var rear: nat
    var capacity: nat

    ghost predicate Valid()
      reads this
    {
      base.Length == capacity >= MIN_CAPACITY && front < capacity && rear < capacity
    }

    /** The elements, oldest first. */
    ghost function Contents(): (s: seq<T>)
      requires Valid()
      reads this, base
      ensures |s| < capacity
    {
      Window(base[..], front, Count(front, rear, capacity))
    }

    /** `__queue_create`, when both allocations succeed. */
    constructor ()
      ensures Valid() && Contents() == [] && fresh(base)
    {
      base := new T[MIN_CAPACITY];
      front, rear, capacity := 0, 0, MIN_CAPACITY;
      new;
    }

    /** `memcpy` */
    static method Copy(dst: array<T>, at: nat, src: seq<T>)
      requires at + |src| <= dst.Length
      modifies dst
      ensures dst[..] == old(dst[..])[..at] + src + old(dst[..])[at + |src|..]
    {
      var k := 0;
      while k < |src|
        invariant k <= |src|
        invariant dst[..] == old(dst[..])[..at] + src[..k] + old(dst[..])[at + k..]
      {
        dst[at + k] := src[k];
        k := k + 1;
      }
      assert src[..k] == src;
    }

    /** The copying of `__queue_expand`: one stretch, or the two of a wrapped layout. */
    static method Unwrapped(base: array<T>, front: nat, rear: nat) returns (newBase: array<T>)
      requires front < base.Length && rear < base.Length && front != rear
      ensures fresh(newBase) && newBase.Length == 2 * base.Length
      ensures var size := Count(front, rear, base.Length); newBase[..size] == Window(base[..], front, size)
    {
      var size := QueueSize(front, rear, base.Length);
      WindowParts(base[..], front, size);
      newBase := new T[base.Length * 2];
      if front < rear {
        Copy(newBase, 0, base[front..front + size]);
      } else {
        Copy(newBase, 0, base[front..]);
        Copy(newBase, base.Length - front, base[..rear]);
      }
    }

    /** `__queue_expand`: the same elements in a larger array, whether or not they wrapped. */
    method Expand(memory: bool) returns (err: int)
      requires Valid() && front != rear
      modifies this
      ensures Valid() && err == (if memory then 0 else -ENOMEM)
      ensures Contents() == old(Contents())
      ensures memory ==> capacity == 2 * old(capacity) && fresh(base)
      ensures !memory ==> base == old(base) && capacity == old(capacity) && front == old(front) && rear == old(rear)
    {
      if !memory {
        return -ENOMEM;
      }
      var newBase := Unwrapped(base, front, rear);
      var size := QueueSize(front, rear, capacity);
      rear, front, base, capacity := size, 0, newBase, capacity * 2;
      WindowParts(base[..], 0, size);
      err := 0;
    }

    /** The last two statements of `__enqueue`. */
    method Put(x: T)
      requires Valid() && |Contents()| < capacity - 1
      modifies this`rear, base
      ensures Valid() && Contents() == old(Contents()) + [x]
    {
      WindowPush(base[..], front, Count(front, rear, capacity), x);
      base[rear] := x;
      rear := Advance(rear, capacity);
    }

    /** `__enqueue`: appends, growing first if the ring is full; fails only for want of memory. */
    method Enqueue(x: T, memory: bool) returns (err: int)
      requires Valid()
      modifies this, base
      ensures Valid() && (base == old(base) || fresh(base))
      ensures err == if |old(Contents())| == old(capacity) - 1 && !memory then -ENOMEM else 0
      ensures Contents() == if err == 0 then old(Contents()) + [x] else old(Contents())
    {
      var full := QueueFull(front, rear, capacity);
      if full {
        err := Expand(memory);
        if err != 0 {
          return;
        }
      }
      Put(x);
      err := 0;
    }

    /** `__dequeue`: the oldest element. */
    method Dequeue() returns (err: int, x: T)
      requires Valid()
      modifies this
      ensures Valid() && base == old(base)
      ensures err == if old(Contents()) == [] then -ENOENT else 0
      ensures err == 0 ==> old(Contents()) == [x] + Contents()
      ensures err != 0 ==> Contents() == old(Contents())
    {
      if front == rear {
        x := base[front];
        return -ENOENT, x;
      }
      x := base[front];
      WindowDrops(base[..], front, Count(front, rear, capacity), 1);
      front := Advance(front, capacity);
      err := 0;
    }

    /** `queue_size` */
    method Size() returns (n: nat)
      requires Valid()
      ensures n == |Contents()|
    {
      n := QueueSize(front, rear, capacity);
    }
  }
}

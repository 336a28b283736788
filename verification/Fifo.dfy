/** libs/fifo.c called by one thread at a time, on its byte array. */
module Fifo {
  import opened FifoIndex
  import opened FifoSteps
  import opened RingWindow

  const ENOENT: int := 2
  const ENOSPC: int := 28

  function First(len: nat, off: nat, size: nat): nat
    requires off <= size
  {
    if len < size - off then len else size - off
  }

  /** The array after the two `memcpy`s of `fifo_copy_in`. */
  function Overwritten(d: seq<Byte>, off: nat, src: seq<Byte>): (r: seq<Byte>)
    requires off < |d| && |src| < |d|
    ensures |r| == |d|
  {
    var l := First(|src|, off, |d|);
    var d1 := d[..off] + src[..l] + d[off + l..];
    src[l..] + d1[|src| - l..]
  }

  /** Writing behind the window extends it. */
  lemma WindowGrows(d: seq<Byte>, o: nat, len: nat, src: seq<Byte>)
    requires o < |d| && len + |src| < |d|
    ensures Window(Overwritten(d, Wrap(o + len, |d|), src), o, len + |src|) == Window(d, o, len) + src
  {
    var d' := Overwritten(d, Wrap(o + len, |d|), src);
    var a, b := Window(d', o, len + |src|), Window(d, o, len) + src;
    assert forall k :: 0 <= k < |a| ==> a[k] == b[k];
    assert a == b;
  }

  /** The two `memcpy`s of `fifo_copy_out` read a window. */
  lemma WindowSplits(d: seq<Byte>, off: nat, len: nat)
    requires off < |d| && len <= |d|
    ensures var l := First(len, off, |d|); d[off..off + l] + d[..len - l] == Window(d, off, len)
  {
    var l := First(len, off, |d|);
    var a, b := d[off..off + l] + d[..len - l], Window(d, off, len);
    assert forall k :: 0 <= k < |a| ==> a[k] == b[k];
    assert a == b;
  }

  /** Moving the write index by `m` adds `m` bytes, and moving the read index takes them. */
  lemma Moves(i: nat, o: nat, size: nat, m: nat)
    requires i < size && o < size
    ensures i == Wrap(o + Len(i, o, size), size)
    ensures Len(i, o, size) + m < size ==> Len(Wrap(i + m, size), o, size) == Len(i, o, size) + m
    ensures m <= Len(i, o, size) ==> Len(i, Wrap(o + m, size), size) == Len(i, o, size) - m
  {}

  class Fifo {
    var i: nat
    var o: nat
    const data: array<Byte>

    ghost predicate Valid()
      reads this
    {
      0 < data.Length <= WORD / 2 && i < data.Length && o < data.Length
    }

    /** The bytes in the ring, oldest first. */
    ghost function Contents(): (s: seq<Byte>)
      requires Valid()
      reads this, data
      ensures |s| < data.Length
    {
      Window(data[..], o, Len(i, o, data.Length))
    }

    /** `fifo_init` */
    constructor (buffer: array<Byte>)
      requires 0 < buffer.Length <= WORD / 2
      ensures Valid() && data == buffer && Contents() == []
    {
      i, o, data := 0, 0, buffer;
    }

    /** `memcpy` into the ring's array. */
    method CopyTo(at: nat, src: seq<Byte>)
      requires at + |src| <= data.Length
      modifies data
      ensures data[..] == old(data[..])[..at] + src + old(data[..])[at + |src|..]
    {
      var k := 0;
      while k < |src|
        invariant k <= |src|
        invariant data[..] == old(data[..])[..at] + src[..k] + old(data[..])[at + k..]
      {
        data[at + k] := src[k];
        k := k + 1;
      }
      assert src[..k] == src;
    }

    /** `fifo_copy_in` */
    method CopyIn(src: seq<Byte>, off: nat)
      requires off < data.Length && |src| < data.Length
      modifies data
      ensures data[..] == Overwritten(old(data[..]), off, src)
    {
      var l := First(|src|, off, data.Length);
      CopyTo(off, src[..l]);
      CopyTo(0, src[l..]);
      assert data[..0] == [];
    }

    /** `fifo_copy_out` */
    method CopyOut(len: nat, off: nat) returns (dst: seq<Byte>)
      requires off < data.Length && len <= data.Length
      ensures dst == Window(data[..], off, len)
    {
      var l := First(len, off, data.Length);
      dst := data[off..off + l] + data[..len - l];
      WindowSplits(data[..], off, len);
    }

    /** `fifo_in`: all or nothing. */
    method In(src: seq<Byte>) returns (err: int)
      requires Valid()
      modifies this, data
      ensures Valid() && o == old(o)
      ensures err == if |old(Contents())| + |src| <= data.Length - 1 then 0 else -ENOSPC
      ensures Contents() == if err == 0 then old(Contents()) + src else old(Contents())
      ensures err != 0 ==> i == old(i) && data[..] == old(data[..])
    {
      var avail := FifoAvail(i, o, data.Length);
      if avail < |src| {
        return -ENOSPC;
      }
      Moves(i, o, data.Length, |src|);
      WindowGrows(data[..], o, Len(i, o, data.Length), src);
      CopyIn(src, i);
      i := Advance(i, |src|, data.Length);
      err := 0;
    }

    /** `fifo_out_peek` */
    method Peek(len: nat) returns (err: int, dst: seq<Byte>)
      requires Valid()
      ensures err == if len <= |Contents()| then 0 else -ENOENT
      ensures err == 0 ==> dst == Contents()[..len]
    {
      var n := FifoLen(i, o, data.Length);
      if n < len {
        return -ENOENT, [];
      }
      dst := CopyOut(len, o);
      err := 0;
    }

    /** `fifo_skip` */
    method Skip(len: nat) returns (err: int)
      requires Valid()
      modifies this
      ensures Valid() && i == old(i)
      ensures err == if len <= |old(Contents())| then 0 else -ENOENT
      ensures Contents() == if err == 0 then old(Contents())[len..] else old(Contents())
    {
      var n := FifoLen(i, o, data.Length);
      if n < len {
        return -ENOENT;
      }
      Moves(i, o, data.Length, len);
      WindowDrops(data[..], o, Len(i, o, data.Length), len);
      o := Advance(o, len, data.Length);
      err := 0;
    }

    /** `fifo_out` */
    method Out(len: nat) returns (err: int, dst: seq<Byte>)
      requires Valid()
      modifies this
      ensures Valid() && i == old(i)
      ensures err == if len <= |old(Contents())| then 0 else -ENOENT
      ensures err == 0 ==> old(Contents()) == dst + Contents() && |dst| == len
      ensures err != 0 ==> Contents() == old(Contents())
    {
      var n := FifoLen(i, o, data.Length);
      if n < len {
        return -ENOENT, [];
      }
      dst := CopyOut(len, o);
      Moves(i, o, data.Length, len);
      WindowDrops(data[..], o, Len(i, o, data.Length), len);
      o := Advance(o, len, data.Length);
      err := 0;
    }
  }
}

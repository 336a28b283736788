/** What a ring buffer holds, as a sequence. */
module RingWindow {

  /** The ring slot of an index less than two turns from the start. */
  function Wrap(x: nat, size: nat): nat { if x < size then x else x - size }

  /** `len` elements of the ring from offset `o` on. */
  function Window<T>(d: seq<T>, o: nat, len: nat): (w: seq<T>)
    requires o < |d| && len <= |d|
    ensures |w| == len && forall k :: 0 <= k < len ==> w[k] == d[Wrap(o + k, |d|)]
  {
    seq(len, k requires 0 <= k < len => d[Wrap(o + k, |d|)])
  }

  /** The window after its first `m` elements, and those. */
  lemma WindowDrops<T>(d: seq<T>, o: nat, len: nat, m: nat)
    requires o < |d| && m <= len < |d|
    ensures Window(d, Wrap(o + m, |d|), len - m) == Window(d, o, len)[m..]
    ensures Window(d, o, len)[..m] == Window(d, o, m)
  {
    var a, b := Window(d, Wrap(o + m, |d|), len - m), Window(d, o, len)[m..];
    assert forall k :: 0 <= k < |a| ==> a[k] == b[k];
    assert a == b;
  }

  /** Writing at the end of the window extends it. */
  lemma WindowPush<T>(d: seq<T>, o: nat, len: nat, x: T)
    requires o < |d| && len < |d|
    ensures Window(d[Wrap(o + len, |d|) := x], o, len + 1) == Window(d, o, len) + [x]
  {
    var d' := d[Wrap(o + len, |d|) := x];
    var a, b := Window(d', o, len + 1), Window(d, o, len) + [x];
    assert forall k :: 0 <= k < |a| ==> a[k] == b[k];
    assert a == b;
  }

  /** A window is one stretch of the array, or two. */
  lemma WindowParts<T>(d: seq<T>, o: nat, len: nat)
    requires o < |d| && len <= |d|
    ensures Window(d, o, len) == if o + len <= |d| then d[o..o + len] else d[o..] + d[..o + len - |d|]
  {
    var a, b := Window(d, o, len), if o + len <= |d| then d[o..o + len] else d[o..] + d[..o + len - |d|];
    assert forall k :: 0 <= k < |a| ==> a[k] == b[k];
    assert a == b;
  }
}

/** The index arithmetic of libs/fifo.c: remainders of 32-bit words, and what they come to. */
module FifoIndex {
  import opened Modulo
  import opened RingWindow

  const WORD: nat := 0x1_0000_0000

  /** The number of bytes between read index `o` and write index `i`. */
  function Len(i: nat, o: nat, size: nat): nat
    requires o < size
  {
    if i >= o then i - o else i + size - o
  }

  /** `fifo_len`: right exactly when the sum of indices stays within a word, as it always does in
      a buffer of up to 2 GB. */
  method FifoLen(i: nat, o: nat, size: nat) returns (n: nat)
    requires i < size && o < size < WORD
    ensures n < size
    ensures n == Len(i, o, size) <==> i + size - o < WORD
    ensures size <= WORD / 2 ==> n == Len(i, o, size)
  {
    n := (i + size - o) % WORD % size;
    if i + size - o >= WORD {
      WrapMod(i + size - o, WORD);
      SmallMod(i + size - o - WORD, size);
    } else {
      SmallMod(i + size - o, WORD);
      if i >= o {
        WrapMod(i + size - o, size);
      } else {
        SmallMod(i + size - o, size);
      }
    }
  }

  /** `fifo_avail`: one slot is always left free. */
  method FifoAvail(i: nat, o: nat, size: nat) returns (n: nat)
    requires i < size && o < size < WORD
    ensures n == size - 1 - Len(i, o, size) <==> i + size - o < WORD
    ensures size <= WORD / 2 ==> n == size - 1 - Len(i, o, size)
  {
    var len := FifoLen(i, o, size);
    n := (size - 1 - len + WORD) % WORD;
    WrapMod(size - 1 - len + WORD, WORD);
  }

  /** How either index advances by `m` bytes. */
  method Advance(x: nat, m: nat, size: nat) returns (y: nat)
    requires x < size < WORD && m < size
    ensures y == Wrap(x + m, size) <==> x + m < WORD
    ensures size <= WORD / 2 ==> y == Wrap(x + m, size)
  {
    y := (x + m) % WORD % size;
    if x + m >= WORD {
      WrapMod(x + m, WORD);
      SmallMod(x + m - WORD, size);
    } else {
      SmallMod(x + m, WORD);
      if x + m < size {
        SmallMod(x + m, size);
      } else {
        WrapMod(x + m, size);
      }
    }
  }
}

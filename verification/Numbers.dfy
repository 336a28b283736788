/** The number printer and parser of libs/string.c. */
module Numbers {
  import opened Modulo

  const WORD: int := 0x1_0000_0000
  const INT_MIN: int := -0x8000_0000
  const INT_MAX: int := 0x7fff_ffff

  /** A 32-bit signed word, as overflow leaves it. */
  function Signed(x: int): int { (x + 0x8000_0000) % WORD - 0x8000_0000 }

  lemma SignedStep(a: int, b: int, c: int)
    ensures Signed(Signed(a) * b + c) == Signed(a * b + c)
  {
    var k := (a + 0x8000_0000) / WORD;
    assert Signed(a) == a - k * WORD;
    assert Signed(a) * b + c == a * b + c + (-(k * b)) * WORD by {
      assert (k * WORD) * b == (k * b) * WORD;
      assert (a - k * WORD) * b == a * b - (k * WORD) * b;
    }
    AddMultiple(a * b + c + 0x8000_0000, -(k * b), WORD);
  }

  // ---------------------------------------------------------------- digits

  /** The character of digit `d`, up to base 36, lower case. */
  function DigitChar(d: nat): char
    requires d < 36
  {
    if d < 10 then ('0' as int + d) as char else ('a' as int + d - 10) as char
  }

  /** The value of a character as a digit; 36 if it is none. */
  function DigitOf(c: char): nat {
    if '0' <= c <= '9' then c as int - '0' as int
    else if 'a' <= c <= 'z' then c as int - 'a' as int + 10
    else if 'A' <= c <= 'Z' then c as int - 'A' as int + 10
    else 36
  }

  lemma DigitRoundTrip(d: nat)
    requires d < 36
    ensures DigitOf(DigitChar(d)) == d
  {}

  /** The two bases that are printed. */
  datatype Base = Dec | Hex

  function Radix(b: Base): nat { if b == Dec then 10 else 16 }

  function Quot(n: nat, b: Base): nat { if b == Dec then n / 10 else n / 16 }

  function Rem(n: nat, b: Base): nat { if b == Dec then n % 10 else n % 16 }

  /** The numeral of `n`, most significant digit first; empty for 0. */
  function Numeral(n: nat, b: Base): (s: string)
    ensures s == "" <==> n == 0
  {
    if n == 0 then "" else Numeral(Quot(n, b), b) + [DigitChar(Rem(n, b))]
  }

  /** All characters are digits of the base. */
  predicate AllDigits(s: string, base: int) {
    forall i :: 0 <= i < |s| ==> DigitOf(s[i]) < 36 && DigitOf(s[i]) < base
  }

  /** The value of a numeral. */
  function Value(s: string, base: int): int {
    if s == "" then 0 else Value(s[..|s| - 1], base) * base + DigitOf(s[|s| - 1])
  }

  lemma ValueSnoc(s: string, c: char, base: int)
    ensures Value(s + [c], base) == Value(s, base) * base + DigitOf(c)
  {
    assert (s + [c])[..|s|] == s;
  }

  lemma NumeralSnoc(s: string, q: nat, r: nat, base: nat)
    requires r < base <= 36 && AllDigits(s, base) && Value(s, base) == q
    ensures AllDigits(s + [DigitChar(r)], base) && Value(s + [DigitChar(r)], base) == q * base + r
  {
    ValueSnoc(s, DigitChar(r), base);
    DigitRoundTrip(r);
  }

  /** Printing and reading a numeral are inverse. */
  lemma {:induction false} NumeralRoundTrip(n: nat, b: Base)
    ensures AllDigits(Numeral(n, b), Radix(b)) && Value(Numeral(n, b), Radix(b)) == n
  {
    if n > 0 {
      NumeralRoundTrip(Quot(n, b), b);
      NumeralSnoc(Numeral(Quot(n, b), b), Quot(n, b), Rem(n, b), Radix(b));
      Recomposed(n, b);
    }
  }

  lemma Recomposed(n: nat, b: Base)
    ensures Quot(n, b) * Radix(b) + Rem(n, b) == n && Rem(n, b) < Radix(b)
  {}

  // ---------------------------------------------------------------- reverse_str

  function Reversed(s: string): (r: string)
    ensures |r| == |s|
  {
    if s == "" then "" else Reversed(s[1..]) + [s[0]]
  }

  lemma {:induction false} ReversedAt(s: string, k: nat)
    requires k < |s|
    ensures Reversed(s)[k] == s[|s| - 1 - k]
  {
    if k < |s| - 1 {
      ReversedAt(s[1..], k);
    }
  }

  lemma {:induction false} ReversedSnoc(s: string, c: char)
    ensures Reversed(s + [c]) == [c] + Reversed(s)
  {
    if s != "" {
      assert (s + [c])[1..] == s[1..] + [c];
      ReversedSnoc(s[1..], c);
    }
  }

  lemma ReversedIs(s: string, r: string)
    requires |r| == |s| && forall k :: 0 <= k < |s| ==> r[k] == s[|s| - 1 - k]
    ensures r == Reversed(s)
  {
    forall k: nat | k < |s| ensures r[k] == Reversed(s)[k] {
      ReversedAt(s, k);
    }
  }

  /** Where the character at `k` comes from once the outer pairs have been swapped. */
  function Origin(i0: int, i: int, j: int, j0: int, k: int): int {
    if i0 <= k < i || j < k <= j0 then i0 + j0 - k else k
  }

  /** `s` is `was` with the pairs outside `i` to `j` swapped. */
  ghost predicate Swapped(was: string, s: string, i0: int, i: int, j: int, j0: int) {
    && 0 <= i0 <= i <= j + 1 <= j0 + 1 <= |was| == |s| && i + j == i0 + j0
    && forall k :: 0 <= k < |s| ==> s[k] == was[Origin(i0, i, j, j0, k)]
  }

  lemma SwapStep(was: string, s: string, i0: int, i: int, j: int, j0: int)
    requires Swapped(was, s, i0, i, j, j0) && i < j
    ensures Swapped(was, s[i := s[j]][j := s[i]], i0, i + 1, j - 1, j0)
  {}

  lemma SwapEnd(was: string, s: string, i0: int, i: int, j: int, j0: int)
    requires Swapped(was, s, i0, i, j, j0) && i >= j
    ensures s[..i0] == was[..i0] && s[j0 + 1..] == was[j0 + 1..] && s[i0..j0 + 1] == Reversed(was[i0..j0 + 1])
  {
    var a, b := was[i0..j0 + 1], s[i0..j0 + 1];
    forall k | 0 <= k < |a| ensures b[k] == a[|a| - 1 - k] {
      assert s[i0 + k] == was[Origin(i0, i, j, j0, i0 + k)];
    }
    ReversedIs(a, b);
  }

  /** `reverse_str`: the stretch from `i` to `j` is turned round in place. */
  method ReverseStr(buf: array<char>, i0: nat, j0: int)
    requires i0 <= j0 + 1 <= buf.Length
    modifies buf
    ensures buf[..i0] == old(buf[..i0]) && buf[j0 + 1..] == old(buf[j0 + 1..])
    ensures buf[i0..j0 + 1] == Reversed(old(buf[i0..j0 + 1]))
  {
    ghost var was := buf[..];
    var i, j := i0, j0;
    while i < j
      invariant i0 <= i && j <= j0 && Swapped(was, buf[..], i0, i, j, j0)
    {
      ghost var s := buf[..];
      var c := buf[i];
      buf[i] := buf[j];
      buf[j] := c;
      assert buf[..] == s[i := s[j]][j := s[i]];
      SwapStep(was, s, i0, i, j, j0);
      i, j := i + 1, j - 1;
    }
    SwapEnd(was, buf[..], i0, i, j, j0);
  }

  lemma {:induction false} ReversedConcat(a: string, b: string)
    ensures Reversed(a + b) == Reversed(b) + Reversed(a)
  {
    if a == "" {
      assert a + b == b;
    } else {
      assert (a + b)[1..] == a[1..] + b;
      ReversedConcat(a[1..], b);
    }
  }

  lemma {:induction false} ReversedTwice(s: string)
    ensures Reversed(Reversed(s)) == s
  {
    if s != "" {
      ReversedTwice(s[1..]);
      ReversedSnoc(Reversed(s[1..]), s[0]);
    }
  }

  // ---------------------------------------------------------------- the digit loops

  function Power(b: Base, k: nat): nat {
    if k == 0 then 1 else Radix(b) * Power(b, k - 1)
  }

  lemma {:induction false} NumeralLength(n: nat, b: Base, k: nat)
    requires n < Power(b, k)
    ensures |Numeral(n, b)| <= k
    decreases k
  {
    if n > 0 {
      NumeralLength(Quot(n, b), b, k - 1);
    }
  }

  /** The digits of `n` from the lowest on. */
  function LowFirst(n: nat, b: Base): string {
    if n == 0 then "" else [DigitChar(Rem(n, b))] + LowFirst(Quot(n, b), b)
  }

  lemma {:induction false} LowFirstIs(n: nat, b: Base)
    ensures LowFirst(n, b) == Reversed(Numeral(n, b)) && |LowFirst(n, b)| == |Numeral(n, b)|
  {
    if n > 0 {
      LowFirstIs(Quot(n, b), b);
      ReversedSnoc(Numeral(Quot(n, b), b), DigitChar(Rem(n, b)));
    }
  }

  /** The loops of `to_str` and `to_hex` that write digits from the lowest on. */
  method PutDigits(buf: array<char>, start: nat, val0: int, b: Base, ghost n: nat) returns (i: nat)
    requires n == (if val0 > 0 then val0 else 0) && start + |LowFirst(n, b)| <= buf.Length
    modifies buf
    ensures i == start + |LowFirst(n, b)| && buf[start..i] == LowFirst(n, b)
    ensures buf[..start] == old(buf[..start]) && buf[i..] == old(buf[i..])
  {
    i := start;
    var val := val0;
    ghost var full, done, rest := LowFirst(n, b), "", LowFirst(n, b);
    while val > 0
      invariant full == done + rest && i == start + |done| && rest == (if val > 0 then LowFirst(val, b) else "")
      invariant buf[start..i] == done && buf[..start] == old(buf[..start]) && buf[i..] == old(buf[i..])
      decreases val
    {
      var c := DigitChar(Rem(val, b));
      Extend(full, done, rest, c);
      val, rest := Quot(val, b), rest[1..];
      PutOne(buf, start, i, c);
      done := done + [c];
      i := i + 1;
    }
    assert done + "" == done;
  }

  lemma Extend(full: string, done: string, rest: string, c: char)
    requires full == done + rest && rest != "" && rest[0] == c
    ensures full == done + [c] + rest[1..]
  {}

  /** `buf[i++] = c` */
  method PutOne(buf: array<char>, start: nat, i: nat, c: char)
    requires start <= i < buf.Length
    modifies buf
    ensures buf[start..i + 1] == old(buf[start..i]) + [c] && buf[..start] == old(buf[..start]) && buf[i + 1..] == old(buf[i + 1..])
  {
    buf[i] := c;
  }

  /** Digits written from the lowest on and then turned round. */
  method PutNumeral(buf: array<char>, start: nat, val: int, b: Base, ghost n: nat) returns (i: nat)
    requires n == (if val > 0 then val else 0) && start + |Numeral(n, b)| <= buf.Length
    modifies buf
    ensures i == start + |Numeral(n, b)| && buf[start..i] == Numeral(n, b) && buf[..start] == old(buf[..start])
  {
    LowFirstIs(n, b);
    i := PutDigits(buf, start, val, b, n);
    ReversedTwice(Numeral(n, b));
    ReverseStr(buf, start, i - 1);
  }
}

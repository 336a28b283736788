/** `to_str`, `to_hex`, `strtol` and `hex_to_value`, and that they undo each other. */
module NumberText {
  import opened Numbers

  // ---------------------------------------------------------------- printing

  /** What `to_str` prints.  The least integer has no positive counterpart and loses its digits. */
  function Decimal(v: int): string {
    if v == 0 then "0"
    else if v == INT_MIN then "-"
    else if v < 0 then "-" + Numeral(-v, Dec)
    else Numeral(v, Dec)
  }

  /** A buffer of eleven characters is always enough. */
  lemma DecimalLength(v: int)
    requires INT_MIN <= v <= INT_MAX
    ensures |Decimal(v)| <= 11
  {
    assert Power(Dec, 5) == 100_000;
    assert Power(Dec, 10) == 10_000_000_000;
    NumeralLength(if v < 0 then -v else v, Dec, 10);
  }

  /** `to_str`; the length argument is not used. */
  method ToStr(v: int, buf: array<char>) returns (n: nat)
    requires INT_MIN <= v <= INT_MAX && |Decimal(v)| <= buf.Length
    modifies buf
    ensures n == |Decimal(v)| && buf[..n] == Decimal(v)
  {
    if v == 0 {
      buf[0] := '0';
      return 1;
    }
    var val, i := v, 0;
    if val < 0 {
      buf[0] := '-';
      i := 1;
      val := Signed(-val);
    }
    ghost var m: nat := if val > 0 then val else 0;
    ghost var head := buf[..i];
    n := PutNumeral(buf, i, val, Dec, m);
    assert buf[..n] == head + Numeral(m, Dec);
  }

  function Zeros(k: nat): (s: string)
    ensures |s| == k && forall i :: 0 <= i < k ==> s[i] == '0'
  {
    seq(k, _ => '0')
  }

  lemma {:induction false} ReversedZeros(k: nat)
    ensures Reversed(Zeros(k)) == Zeros(k)
  {
    if k > 0 {
      assert Zeros(k)[1..] == Zeros(k - 1);
      ReversedZeros(k - 1);
      assert Zeros(k - 1) + ['0'] == Zeros(k);
    }
  }

  lemma EightDigits(n: nat)
    requires n < WORD
    ensures |Numeral(n, Hex)| <= 8
  {
    assert Power(Hex, 4) == 0x1_0000;
    assert Power(Hex, 8) == WORD;
    NumeralLength(n, Hex, 8);
  }

  /** Eight hexadecimal digits. */
  function Padded(n: nat): (s: string)
    requires n < WORD
    ensures |s| == 8
  {
    EightDigits(n);
    Zeros(8 - |Numeral(n, Hex)|) + Numeral(n, Hex)
  }

  /** `to_hex`; the length argument is not used. */
  method ToHex(val: nat, buf: array<char>) returns (n: nat)
    requires val < WORD && buf.Length >= 10
    modifies buf
    ensures n == 10 && buf[..n] == "0x" + Padded(val)
  {
    EightDigits(val);
    buf[0], buf[1] := '0', 'x';
    assert buf[..2] == "0x";
    LowFirstIs(val, Hex);
    n := PutDigits(buf, 2, val, Hex, val);
    n := Pad(buf, n, Reversed(Numeral(val, Hex)));
    Unpadded(Numeral(val, Hex));
    ReverseStr(buf, 2, n - 1);
    assert buf[..10] == buf[..2] + buf[2..10];
  }

  /** The second loop of `to_hex`. */
  method Pad(buf: array<char>, i: nat, ghost low: string) returns (n: nat)
    requires 2 <= i <= 10 <= buf.Length && buf[2..i] == low
    modifies buf
    ensures n == 10 && buf[..2] == old(buf[..2]) && |low| <= 8 && buf[2..n] == low + Zeros(8 - |low|)
  {
    n := i;
    while n < 10
      invariant i <= n <= 10 && buf[..2] == old(buf[..2]) && buf[2..n] == low + Zeros(n - i)
    {
      assert Zeros(n - i) + ['0'] == Zeros(n + 1 - i);
      PutOne(buf, 2, n, '0');
      n := n + 1;
    }
  }

  lemma Unpadded(t: string)
    requires |t| <= 8
    ensures Reversed(Reversed(t) + Zeros(8 - |t|)) == Zeros(8 - |t|) + t
  {
    ReversedConcat(Reversed(t), Zeros(8 - |t|));
    ReversedZeros(8 - |t|);
    ReversedTwice(t);
  }

  // ---------------------------------------------------------------- strtol

  /** A character of a string that ends in NUL. */
  function CharAt(s: string, i: nat): char { if i < |s| then s[i] else '\0' }

  predicate IsDigit(c: char, base: int) { DigitOf(c) < 36 && DigitOf(c) < base }

  function SkipBlanks(s: string, i: nat): (j: nat)
    requires i <= |s|
    ensures i <= j <= |s|
    decreases |s| - i
  {
    if i < |s| && (s[i] == ' ' || s[i] == '\t') then SkipBlanks(s, i + 1) else i
  }

  /** Where the run of digits that starts at `i` ends. */
  function RunEnd(s: string, i: nat, base: int): (j: nat)
    requires i <= |s|
    ensures i <= j <= |s|
    decreases |s| - i
  {
    if i < |s| && IsDigit(s[i], base) then RunEnd(s, i + 1, base) else i
  }

  /** How many characters a base prefix takes at `i`, and the base it leaves. */
  function Prefix(s: string, i: nat, base: int): (r: (nat, int))
    requires i <= |s|
    ensures i + r.0 <= |s|
  {
    if (base == 0 || base == 16) && CharAt(s, i) == '0' && CharAt(s, i + 1) == 'x' then (2, 16)
    else if base == 0 && CharAt(s, i) == '0' then (1, 8)
    else if base == 0 then (0, 10)
    else (0, base)
  }

  datatype Parsed = Parsed(value: int, end: nat)

  /** A prefix, and then as many digits as there are: their exact value, kept in 32 bits. */
  function ParseNumber(s: string, j: nat, neg: bool, base: int): (r: Parsed)
    requires j <= |s|
    ensures r.end <= |s|
  {
    var (k, b) := Prefix(s, j, base);
    var e := RunEnd(s, j + k, b);
    var v := Value(s[j + k..e], b);
    Parsed(Signed(if neg then -v else v), e)
  }

  /** The same after blanks and a sign. */
  function Parse(s: string, base: int): (r: Parsed)
    ensures r.end <= |s|
  {
    var i := SkipBlanks(s, 0);
    var neg := CharAt(s, i) == '-';
    ParseNumber(s, if neg || CharAt(s, i) == '+' then i + 1 else i, neg, base)
  }

  lemma DigitStep(s: string, start: nat, i: nat, base: int)
    requires start <= i < |s|
    ensures Signed(Signed(Value(s[start..i], base)) * base + DigitOf(s[i])) == Signed(Value(s[start..i + 1], base))
  {
    SignedStep(Value(s[start..i], base), base, DigitOf(s[i]));
    ValueSnoc(s[start..i], s[i], base);
    assert s[start..i] + [s[i]] == s[start..i + 1];
  }

  /** The digit loop of `strtol`, with `val` overflowing as it goes. */
  method DigitRun(s: string, start: nat, base: int) returns (val: int, i: nat)
    requires start <= |s|
    ensures i == RunEnd(s, start, base) && val == Signed(Value(s[start..i], base))
  {
    i, val := start, 0;
    while IsDigit(CharAt(s, i), base)
      invariant start <= i <= |s| && RunEnd(s, i, base) == RunEnd(s, start, base)
      invariant val == Signed(Value(s[start..i], base))
      decreases |s| - i
    {
      DigitStep(s, start, i, base);
      val := Signed(val * base + DigitOf(s[i]));
      i := i + 1;
    }
  }

  /** The second half of `strtol`: prefix, digits, sign. */
  method StrtolNumber(s: string, i0: nat, neg: bool, base0: int) returns (value: int, end: nat)
    requires i0 <= |s|
    ensures Parsed(value, end) == ParseNumber(s, i0, neg, base0)
  {
    var i, base := i0, base0;
    if (base == 0 || base == 16) && CharAt(s, i) == '0' && CharAt(s, i + 1) == 'x' {
      i, base := i + 2, 16;
    } else if base == 0 && CharAt(s, i) == '0' {
      i, base := i + 1, 8;
    } else if base == 0 {
      base := 10;
    }
    value, end := DigitRun(s, i, base);
    Negated(Value(s[i..end], base));
    if neg {
      value := Signed(-value);
    }
  }

  lemma Negated(x: int)
    ensures Signed(-Signed(x)) == Signed(-x)
  {
    SignedStep(x, -1, 0);
  }

  /** `strtol` */
  method Strtol(s: string, base: int) returns (value: int, end: nat)
    ensures Parsed(value, end) == Parse(s, base)
  {
    var i, neg := 0, false;
    while CharAt(s, i) == ' ' || CharAt(s, i) == '\t'
      invariant 0 <= i <= |s| && SkipBlanks(s, i) == SkipBlanks(s, 0)
      decreases |s| - i
    {
      i := i + 1;
    }
    if CharAt(s, i) == '+' {
      i := i + 1;
    } else if CharAt(s, i) == '-' {
      i, neg := i + 1, true;
    }
    value, end := StrtolNumber(s, i, neg, base);
  }

  lemma {:induction false} AllRun(s: string, i: nat, base: int)
    requires i <= |s| && AllDigits(s[i..], base)
    ensures RunEnd(s, i, base) == |s|
    decreases |s| - i
  {
    if i < |s| {
      assert s[i..][0] == s[i];
      assert s[i + 1..] == s[i..][1..];
      AllRun(s, i + 1, base);
    }
  }

  lemma NoBlank(c: char)
    requires IsDigit(c, 36)
    ensures c != ' ' && c != '\t' && c != '-' && c != '+'
  {}

  /** Parsing digits, and digits after a minus sign. */
  lemma ParseDigits(t: string, v: int)
    requires t != "" && AllDigits(t, 10) && v == Value(t, 10)
    ensures Parse(t, 10) == Parsed(Signed(v), |t|)
  {
    NoBlank(t[0]);
    assert t[0..] == t;
    AllRun(t, 0, 10);
    assert t[0..|t|] == t;
  }

  lemma ParseMinus(t: string, s: string, v: int)
    requires AllDigits(t, 10) && s == "-" + t && v == -Value(t, 10)
    ensures Parse(s, 10) == Parsed(Signed(v), |s|)
  {
    assert s[0] == '-' && s[1..] == t;
    AllRun(s, 1, 10);
    assert s[1..|s|] == t;
  }

  lemma SignedId(v: int)
    requires INT_MIN <= v <= INT_MAX
    ensures Signed(v) == v
  {}

  lemma ParseDecimal(v: int, s: string)
    requires INT_MIN <= v <= INT_MAX && s == Decimal(v)
    ensures Parse(s, 10) == Parsed(if v == INT_MIN then 0 else v, |s|)
  {
    SignedId(v);
    if v == 0 {
      ValueSnoc("", '0', 10);
      ParseDigits("0", 0);
    } else if v == INT_MIN {
      ParseMinus("", s, 0);
    } else if v < 0 {
      NumeralRoundTrip(-v, Dec);
      ParseMinus(Numeral(-v, Dec), s, v);
    } else {
      NumeralRoundTrip(v, Dec);
      ParseDigits(s, v);
    }
  }

  /** Printing and parsing in base ten is the identity on every integer but the least. */
  lemma DecimalRoundTrip(v: int)
    requires INT_MIN <= v <= INT_MAX
    ensures Parse(Decimal(v), 10).value == v <==> v != INT_MIN
    ensures Parse(Decimal(v), 10).end == |Decimal(v)|
  {
    ParseDecimal(v, Decimal(v));
  }

  // ---------------------------------------------------------------- hex_to_value

  /** `is_digit`: lower case only. */
  predicate IsHex(c: char) { '0' <= c <= '9' || 'a' <= c <= 'f' }

  function HexEnd(s: string): nat { if |s| < 10 then |s| else 10 }

  /** `hex_to_value`: refuses a wrong prefix and any other character among the eight digits. */
  method HexToValue(s: string) returns (err: int, value: int)
    ensures err == 0 <==> |s| >= 2 && s[..2] == "0x" && forall i :: 2 <= i < HexEnd(s) ==> IsHex(s[i])
    ensures err != 0 ==> err == -1
    ensures err == 0 ==> value == Signed(Value(s[2..HexEnd(s)], 16))
  {
    value := 0;
    if CharAt(s, 0) != '0' || CharAt(s, 1) != 'x' {
      return -1, 0;
    }
    assert s[..2] == "0x";
    var i := 2;
    while i < 10 && i < |s|
      invariant 2 <= i <= HexEnd(s) && forall k :: 2 <= k < i ==> IsHex(s[k])
      invariant value == Signed(Value(s[2..i], 16))
    {
      if !IsHex(s[i]) {
        return -1, 0;
      }
      SignedStep(Value(s[2..i], 16), 16, DigitOf(s[i]));
      ValueSnoc(s[2..i], s[i], 16);
      assert s[2..i] + [s[i]] == s[2..i + 1];
      value := Signed(value * 16 + DigitOf(s[i]));
      i := i + 1;
    }
    err := 0;
  }

  lemma {:induction false} ValueZeros(k: nat, t: string, base: int)
    ensures Value(Zeros(k) + t, base) == Value(t, base)
    decreases |t|, k
  {
    if t != "" {
      var u, c := t[..|t| - 1], t[|t| - 1];
      ValueZeros(k, u, base);
      assert Zeros(k) + t == (Zeros(k) + u) + [c] && t == u + [c];
      ValueSnoc(Zeros(k) + u, c, base);
      ValueSnoc(u, c, base);
    } else if k > 0 {
      ValueZeros(k - 1, "", base);
      assert Zeros(k) + "" == (Zeros(k - 1) + "") + ['0'];
      ValueSnoc(Zeros(k - 1) + "", '0', base);
    }
  }

  lemma {:induction false} NumeralHex(n: nat, i: nat)
    requires i < |Numeral(n, Hex)|
    ensures IsHex(Numeral(n, Hex)[i])
  {
    if i < |Numeral(n, Hex)| - 1 {
      NumeralHex(Quot(n, Hex), i);
    }
  }

  lemma PaddedHex(n: nat, i: nat)
    requires n < WORD && i < 8
    ensures IsHex(Padded(n)[i])
  {
    EightDigits(n);
    var k := 8 - |Numeral(n, Hex)|;
    if i >= k {
      NumeralHex(n, i - k);
    }
  }

  lemma PaddedValue(n: nat)
    requires n < WORD
    ensures Value(Padded(n), 16) == n
  {
    EightDigits(n);
    ValueZeros(8 - |Numeral(n, Hex)|, Numeral(n, Hex), 16);
    NumeralRoundTrip(n, Hex);
  }

  /** What `to_hex` prints, `hex_to_value` takes back as the same 32 bits, for every word. */
  lemma HexRoundTrip(n: nat)
    requires n < WORD
    ensures var s := "0x" + Padded(n);
      && |s| == 10 && s[..2] == "0x" && (forall i :: 2 <= i < HexEnd(s) ==> IsHex(s[i]))
      && Signed(Value(s[2..HexEnd(s)], 16)) % WORD == n
  {
    var s := "0x" + Padded(n);
    forall i | 2 <= i < 10 ensures IsHex(s[i]) {
      PaddedHex(n, i - 2);
    }
    assert s[2..10] == Padded(n);
    PaddedValue(n);
  }
}

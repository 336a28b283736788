/** The texts that `strtol` reads, piece by piece: blanks, a sign, a prefix, digits, and whatever
    follows them. */
module NumberGrammar {
  import opened Numbers
  import opened NumberText

  predicate Blanks(s: string) { forall i :: 0 <= i < |s| ==> s[i] == ' ' || s[i] == '\t' }

  /** The digits end where `u` starts. */
  predicate Stops(u: string, base: int) { u != "" ==> !IsDigit(u[0], base) }

  /** The prefix `pre`, before the text `rest`, makes `b` of the base that was asked for. */
  predicate PrefixFor(pre: string, base: int, b: int, rest: string) {
    if pre == "0x" then (base == 0 || base == 16) && b == 16
    else if pre == "0" then base == 0 && b == 8 && CharAt(rest, 0) != 'x'
    else
      && pre == "" && IsDigit(CharAt(rest, 0), b)
      && if base == 0 then b == 10 && rest[0] != '0'
         else b == base && !(base == 16 && rest[0] == '0' && CharAt(rest, 1) == 'x')
  }

  lemma {:induction false} SkipsBlanks(s: string, i: nat, n: nat)
    requires i <= n <= |s| && Blanks(s[i..n]) && (n < |s| ==> s[n] != ' ' && s[n] != '\t')
    ensures SkipBlanks(s, i) == n
    decreases n - i
  {
    if i < n {
      assert s[i..n][0] == s[i] && s[i..n][1..] == s[i + 1..n];
      SkipsBlanks(s, i + 1, n);
    }
  }

  lemma {:induction false} RunStops(s: string, i: nat, e: nat, base: int)
    requires i <= e <= |s| && AllDigits(s[i..e], base) && (e < |s| ==> !IsDigit(s[e], base))
    ensures RunEnd(s, i, base) == e
    decreases e - i
  {
    if i < e {
      assert s[i..e][0] == s[i] && s[i..e][1..] == s[i + 1..e];
      RunStops(s, i + 1, e, base);
    }
  }

  /** What stands at position `j`. */
  lemma PrefixIs(s: string, j: nat, pre: string, base: int, b: int, rest: string)
    requires j <= |s| && s[j..] == pre + rest && PrefixFor(pre, base, b, rest)
    ensures Prefix(s, j, base) == (|pre|, b)
  {
    assert forall k: nat :: j + k < |s| ==> s[j + k] == (pre + rest)[k];
    assert CharAt(s, j) == CharAt(pre + rest, 0) && CharAt(s, j + 1) == CharAt(pre + rest, 1);
  }

  lemma Rest(s: string, j: nat, pre: string, rest: string)
    requires j <= |s| && s[j..] == pre + rest
    ensures j + |pre| <= |s| && s[j + |pre|..] == rest
  {
    assert |s| - j == |pre| + |rest|;
    assert s[j + |pre|..] == s[j..][|pre|..] && (pre + rest)[|pre|..] == rest;
  }

  /** The digits at position `i`. */
  lemma DigitsAt(s: string, i: nat, t: string, u: string, b: int)
    requires i <= |s| && s[i..] == t + u && AllDigits(t, b) && Stops(u, b)
    ensures RunEnd(s, i, b) == i + |t| <= |s| && s[i..i + |t|] == t
  {
    Rest(s, i, t, u);
    assert s[i..i + |t|] == s[i..][..|t|] && (t + u)[..|t|] == t;
    assert u != "" ==> s[i + |t|] == s[i + |t|..][0];
    RunStops(s, i, i + |t|, b);
  }

  lemma Assembled(s: string, j: nat, neg: bool, base: int, k: nat, b: int, e: nat, t: string)
    requires j + k <= e <= |s| && Prefix(s, j, base) == (k, b) && RunEnd(s, j + k, b) == e && s[j + k..e] == t
    ensures ParseNumber(s, j, neg, base) == Parsed(Signed(if neg then -Value(t, b) else Value(t, b)), e)
  {}

  lemma NumberAt(s: string, j: nat, neg: bool, pre: string, base: int, b: int, t: string, u: string)
    requires j <= |s| && s[j..] == pre + (t + u) && PrefixFor(pre, base, b, t + u) && AllDigits(t, b) && Stops(u, b)
    ensures ParseNumber(s, j, neg, base) == Parsed(Signed(if neg then -Value(t, b) else Value(t, b)), j + |pre| + |t|)
  {
    PrefixIs(s, j, pre, base, b, t + u);
    Rest(s, j, pre, t + u);
    DigitsAt(s, j + |pre|, t, u, b);
    Assembled(s, j, neg, base, |pre|, b, j + |pre| + |t|, t);
  }

  /** The character after the blanks and the sign is neither. */
  lemma FirstDigit(pre: string, base: int, b: int, rest: string)
    requires PrefixFor(pre, base, b, rest)
    ensures pre + rest != "" && DigitOf((pre + rest)[0]) < 36
    ensures var c := (pre + rest)[0]; c != ' ' && c != '\t' && c != '+' && c != '-'
  {
    if pre == "" {
      assert (pre + rest)[0] == rest[0];
    } else {
      assert (pre + rest)[0] == '0';
    }
  }

  /** `strtol` on any number of blanks, at most one sign, a prefix that the base allows, digits of the
      base it leaves, and a text that does not go on with one: the signed value of exactly those
      digits, modulo 2^32, and where they end. */
  lemma Reads(blanks: string, sign: string, pre: string, t: string, u: string, base: int, b: int)
    requires Blanks(blanks) && (sign == "" || sign == "+" || sign == "-")
    requires PrefixFor(pre, base, b, t + u) && AllDigits(t, b) && Stops(u, b)
    ensures Parse(blanks + sign + (pre + (t + u)), base) ==
      Parsed(Signed(if sign == "-" then -Value(t, b) else Value(t, b)), |blanks| + |sign| + |pre| + |t|)
  {
    var n := pre + (t + u);
    var s, i := blanks + sign + n, |blanks|;
    FirstDigit(pre, base, b, t + u);
    assert s[i] == if sign == "" then n[0] else sign[0];
    assert s[0..i] == blanks;
    SkipsBlanks(s, 0, i);
    assert s[i + |sign|..] == n;
    NumberAt(s, i + |sign|, sign == "-", pre, base, b, t, u);
  }

  // ---------------------------------------------------------------- hexadecimal prefixes

  /** In base 0 or 16, hexadecimal digits after `0x` are read to their end, for what they are
      worth. */
  lemma SmallPrefix(t: string, base: int)
    requires (base == 0 || base == 16) && AllDigits(t, 16)
    ensures Parse("0x" + t, base) == Parsed(Signed(Value(t, 16)), 2 + |t|)
  {
    Reads("", "", "0x", t, "", base, 16);
    assert "" + "" + ("0x" + (t + "")) == "0x" + t;
  }

  /** After `0X`, which the comment above `strtol` promises to take as well, they are not read at
      all: the number ends with its zero. */
  lemma CapitalPrefix(t: string, base: int)
    requires base == 0 || base == 16
    ensures Parse("0X" + t, base) == Parsed(0, 1)
  {
    var u := "X" + t;
    if base == 0 {
      Reads("", "", "0", "", u, 0, 8);
      assert "" + "" + ("0" + ("" + u)) == "0X" + t;
    } else {
      Reads("", "", "", "0", u, 16, 16);
      ValueSnoc("", '0', 16);
      assert "" + ['0'] == "0" && "" + "" + ("" + ("0" + u)) == "0X" + t;
    }
  }

  /** So the two prefixes mean the same for digits that are worth nothing in 32 bits, and for no
      other; `1f` is worth 31. */
  lemma PrefixIff(t: string, base: int)
    requires (base == 0 || base == 16) && AllDigits(t, 16)
    ensures Parse("0X" + t, base).value == Parse("0x" + t, base).value <==> Signed(Value(t, 16)) == 0
    ensures Value("1f", 16) == 31
  {
    SmallPrefix(t, base);
    CapitalPrefix(t, base);
    ValueSnoc("", '1', 16);
    ValueSnoc("1", 'f', 16);
    assert "" + ['1'] == "1" && "1" + ['f'] == "1f";
  }

  // ---------------------------------------------------------------- what is printed

  lemma {:induction false} NoLeadingZero(n: nat, b: Base)
    requires n > 0
    ensures Numeral(n, b) != "" && Numeral(n, b)[0] != '0'
    decreases n
  {
    Recomposed(n, b);
    var q := Numeral(Quot(n, b), b);
    if Quot(n, b) > 0 {
      NoLeadingZero(Quot(n, b), b);
      assert Numeral(n, b)[0] == q[0];
    } else {
      assert q == "" && Rem(n, b) == n;
    }
  }

  /** The usual way to write `v`: decimal digits without leading zeros, after a minus sign if it is
      negative. */
  predicate WrittenAs(v: int, s: string)
    decreases |s|
  {
    if v < 0 then s != "" && s[0] == '-' && WrittenAs(-v, s[1..])
    else s != "" && AllDigits(s, 10) && Value(s, 10) == v && (s[0] == '0' ==> s == "0")
  }

  /** `to_str` writes every integer but the least that way. */
  lemma PrintsUsual(v: int)
    requires INT_MIN < v <= INT_MAX
    ensures WrittenAs(v, Decimal(v))
  {
    if v == 0 {
      ValueSnoc("", '0', 10);
      assert "" + ['0'] == "0";
    } else {
      var n := if v < 0 then -v else v;
      NumeralRoundTrip(n, Dec);
      NoLeadingZero(n, Dec);
      assert v < 0 ==> Decimal(v)[1..] == Numeral(n, Dec);
    }
  }
}

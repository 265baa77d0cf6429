/** Characters and numbers of the C library the XML code leans on.  A `char` stands for one byte. */
module Chars {

  predicate IsSpace(c: char) {
    c == ' ' || c == '\t' || c == '\n' || c == '\r' || c == 11 as char || c == 12 as char
  }

  /** The value of a digit in `base`, or -1. */
  function DigitValue(c: char, base: nat): (v: int)
    ensures -1 <= v && (v < base || v == -1)
  {
    var v :=
      if '0' <= c <= '9' then c as int - '0' as int
      else if 'a' <= c <= 'z' then c as int - 'a' as int + 10
      else if 'A' <= c <= 'Z' then c as int - 'A' as int + 10
      else -1;
    if v < base then v else -1
  }

  /** The number of leading characters of `s` that are white space. */
  function SpaceSpan(s: string): (n: nat)
    ensures n <= |s| && (n < |s| ==> !IsSpace(s[n]))
    ensures forall i | 0 <= i < n :: IsSpace(s[i])
  {
    if s != [] && IsSpace(s[0]) then 1 + SpaceSpan(s[1..]) else 0
  }

  function DigitSpan(s: string, base: nat): (n: nat)
    ensures n <= |s| && (n < |s| ==> DigitValue(s[n], base) == -1)
    ensures forall i | 0 <= i < n :: DigitValue(s[i], base) >= 0
  {
    if s != [] && DigitValue(s[0], base) >= 0 then 1 + DigitSpan(s[1..], base) else 0
  }

  function DigitsValue(s: string, base: nat): nat
    requires forall i | 0 <= i < |s| :: DigitValue(s[i], base) >= 0
  {
    if s == [] then 0 else DigitsValue(s[..|s| - 1], base) * base + DigitValue(s[|s| - 1], base)
  }

  const LONG_MAX := 0x7FFF_FFFF_FFFF_FFFF

  /** The C library's `strtol`: the number at the head of `s` and the index behind it, after white
      space, a sign and, in base 16, a `0x`; (0, 0) if there are no digits. */
  function StrToL(s: string, base: nat): (r: (int, nat))
    ensures r.1 <= |s|
  {
    var k := DigitsStart(s, base);
    var n := DigitSpan(s[k..], base);
    if n == 0 then (0, 0)
    else (Clamp(Negative(s), DigitsValue(s[k..][..n], base)), k + n)
  }

  function Clamp(negative: bool, v: int): int {
    if negative then (if v > LONG_MAX then -LONG_MAX - 1 else -v) else if v > LONG_MAX then LONG_MAX else v
  }

  predicate Negative(s: string) {
    SpaceSpan(s) < |s| && s[SpaceSpan(s)] == '-'
  }

  /** The index behind white space and sign. */
  function SignEnd(s: string): (j: nat)
    ensures j <= |s|
  {
    var i := SpaceSpan(s);
    if i < |s| && (s[i] == '-' || s[i] == '+') then i + 1 else i
  }

  /** The index of the first digit, if there are any. */
  function DigitsStart(s: string, base: nat): (k: nat)
    ensures k <= |s|
  {
    var j := SignEnd(s);
    if base == 16 && HexPrefix(s[j..]) then j + 2 else j
  }

  predicate HexPrefix(s: string)
    ensures HexPrefix(s) ==> |s| > 2
  {
    |s| > 2 && s[0] == '0' && (s[1] == 'x' || s[1] == 'X') && DigitValue(s[2], 16) >= 0
  }

  /** A semicolon stops the scan, so what follows it has no say. */
  lemma {:induction false} StrToLStops(a: string, b: string, base: nat)
    requires base <= 36 && ';' in a
    ensures StrToL(a + b, base) == StrToL(a, base)
    ensures StrToL(a, base).1 < |a|
  {
    hide DigitsStart, DigitSpan, DigitsValue, Clamp, SpaceSpan, SignEnd, HexPrefix;
    SpaceSpanStops(a, b);
    DigitsStartStops(a, b, base);
    var k := DigitsStart(a, base);
    assert (a + b)[k..] == a[k..] + b;
    DigitSpanStops(a[k..], b, base);
    var n := DigitSpan(a[k..], base);
    assert (a + b)[k..][..n] == a[k..][..n];
  }

  lemma {:induction false} SignEndStops(a: string, b: string)
    requires ';' in a
    ensures SignEnd(a + b) == SignEnd(a) && ';' in a[SignEnd(a)..]
  {
    SpaceSpanStops(a, b);
    SemicolonLater(a, SignEnd(a));
  }

  lemma {:induction false} DigitsStartStops(a: string, b: string, base: nat)
    requires base <= 36 && ';' in a
    ensures DigitsStart(a + b, base) == DigitsStart(a, base) && ';' in a[DigitsStart(a, base)..]
  {
    SignEndStops(a, b);
    var j := SignEnd(a);
    assert (a + b)[j..] == a[j..] + b;
    HexPrefixStops(a[j..], b);
    if HexPrefix(a[j..]) {
      SemicolonLater(a[j..], 2);
      assert a[j..][2..] == a[j + 2..];
    }
  }

  /** The first `j` characters hold no semicolon, so it comes later. */
  lemma {:induction false} SemicolonLater(a: string, j: nat)
    requires ';' in a && j <= |a| && forall i | 0 <= i < j :: a[i] != ';'
    ensures ';' in a[j..]
  {
    var k :| 0 <= k < |a| && a[k] == ';';
    assert a[j..][k - j] == ';';
  }

  lemma {:induction false} HexPrefixStops(a: string, b: string)
    requires ';' in a
    ensures HexPrefix(a + b) <==> HexPrefix(a)
  {
    var k :| 0 <= k < |a| && a[k] == ';';
    assert (a + b)[k] == ';';
  }

  lemma {:induction false} SpaceSpanStops(a: string, b: string)
    requires ';' in a
    ensures SpaceSpan(a + b) == SpaceSpan(a) < |a|
  {
    assert (a + b)[0] == a[0] && (a + b)[1..] == a[1..] + b;
    if IsSpace(a[0]) {
      SpaceSpanStops(a[1..], b);
    }
  }

  lemma {:induction false} DigitSpanStops(a: string, b: string, base: nat)
    requires ';' in a
    ensures DigitSpan(a + b, base) == DigitSpan(a, base) < |a|
  {
    assert (a + b)[0] == a[0] && (a + b)[1..] == a[1..] + b;
    if DigitValue(a[0], base) >= 0 {
      DigitSpanStops(a[1..], b, base);
    }
  }
}

/** What decoding makes of line ends and references, stated over the text itself. */
module References {
  import opened Chars
  import opened Entities
  import opened Decoding
  import opened Escaping
  import Utf8

  // ----------------------------------------------------------------------------------------- line ends

  predicate IsEnd(e: string) {
    e == "\r\n" || e == "\r" || e == "\n"
  }

  predicate IsLine(s: string) {
    forall i | 0 <= i < |s| :: s[i] != '\r' && s[i] != '\n'
  }

  /** Lines with the ends between them. */
  function Joined(lines: seq<string>, ends: seq<string>): string
    requires |lines| == |ends| + 1
  {
    if ends == [] then lines[0] else lines[0] + (ends[0] + Joined(lines[1..], ends[1..]))
  }

  /** No CR stands directly in front of an LF that is an end of its own, for the two would be one end. */
  predicate Apart(lines: seq<string>, ends: seq<string>)
    requires |lines| == |ends| + 1
  {
    forall k | 0 <= k < |ends| - 1 :: !(ends[k] == "\r" && lines[k + 1] == "" && ends[k + 1] == "\n")
  }

  predicate AreLines(lines: seq<string>, ends: seq<string>) {
    && |lines| == |ends| + 1
    && (forall k | 0 <= k < |lines| :: IsLine(lines[k]))
    && (forall k | 0 <= k < |ends| :: IsEnd(ends[k]))
    && Apart(lines, ends)
  }

  function Feeds(n: nat): seq<string> {
    seq(n, _ => "\n")
  }

  /** Whatever ends the lines, they end in LF afterwards. */
  lemma {:induction false} NewLinesJoined(lines: seq<string>, ends: seq<string>)
    requires AreLines(lines, ends)
    ensures NewLines(Joined(lines, ends)) == Joined(lines, Feeds(|ends|))
    decreases |ends|
  {
    var line := lines[0];
    if ends == [] {
      NewLinesLine(line, "");
      assert line + "" == line;
    } else {
      var rest := Joined(lines[1..], ends[1..]);
      assert AreLines(lines[1..], ends[1..]) by {
        assert forall k | 0 <= k < |ends| - 1 :: ends[1..][k] == ends[k + 1] && lines[1..][k] == lines[k + 1];
      }
      NewLinesJoined(lines[1..], ends[1..]);
      assert Feeds(|ends|)[1..] == Feeds(|ends| - 1);
      NewLinesLine(line, ends[0] + rest);
      EndBecomesFeed(ends[0], rest, lines, ends);
    }
  }

  lemma {:induction false} NewLinesLine(line: string, rest: string)
    requires IsLine(line)
    ensures NewLines(line + rest) == line + NewLines(rest)
  {
    if line == "" {
      assert line + rest == rest;
    } else {
      assert (line + rest)[1..] == line[1..] + rest;
      NewLinesLine(line[1..], rest);
    }
  }

  lemma {:induction false} EndBecomesFeed(end: string, rest: string, lines: seq<string>, ends: seq<string>)
    requires AreLines(lines, ends) && ends != [] && end == ends[0] && rest == Joined(lines[1..], ends[1..])
    ensures NewLines(end + rest) == "\n" + NewLines(rest)
  {
    var s := end + rest;
    if end == "\r\n" {
      assert s[2..] == rest;
    } else {
      assert s[1..] == rest;
      if end == "\r" && rest != "" {
        assert rest[0] != '\n' by {
          NoFeedFirst(lines, ends);
        }
      }
    }
  }

  lemma {:induction false} NoFeedFirst(lines: seq<string>, ends: seq<string>)
    requires AreLines(lines, ends) && ends != [] && ends[0] == "\r"
    ensures var rest := Joined(lines[1..], ends[1..]); rest != "" ==> rest[0] != '\n'
  {
    var next := lines[1];
    assert lines[1..][0] == next && IsLine(next);
    if next == "" && |ends| > 1 {
      assert ends[1..][0] == ends[1] && ends[1] != "\n" && IsEnd(ends[1]);
      assert Joined(lines[1..], ends[1..])[0] == ends[1][0];
    }
  }

  /** Decoding does not tell line ends apart, with any entities and in any mode. */
  lemma {:induction false} LineEndsDecode(lines: seq<string>, ends: seq<string>, ents: seq<Entity>, rank: seq<nat>,
      mode: Mode)
    requires AreLines(lines, ends) && Ranked(ents, rank)
    ensures Expand(NewLines(Joined(lines, ends)), ents, rank, mode)
         == Expand(Joined(lines, Feeds(|ends|)), ents, rank, mode)
    ensures Decoded(Joined(lines, ends), mode) == Decoded(Joined(lines, Feeds(|ends|)), mode)
  {
    hide Expand, Ranked;
    NewLinesJoined(lines, ends);
    FeedsAreLines(lines, ends);
    NewLinesJoined(lines, Feeds(|ends|));
    PredefinedRanked();
  }

  lemma {:induction false} FeedsAreLines(lines: seq<string>, ends: seq<string>)
    requires AreLines(lines, ends)
    ensures AreLines(lines, Feeds(|ends|))
  {
  }

  /** Every text is made of such lines. */
  lemma {:induction false} SplitLines(s: string) returns (lines: seq<string>, ends: seq<string>)
    ensures AreLines(lines, ends) && Joined(lines, ends) == s
    decreases |s|
  {
    if s == "" {
      return [""], [];
    }
    var more := if s[0] == '\r' && |s| > 1 && s[1] == '\n' then s[2..] else s[1..];
    var later, laterEnds := SplitLines(more);
    if s[0] == '\r' || s[0] == '\n' {
      var end := s[..|s| - |more|];
      lines, ends := [""] + later, [end] + laterEnds;
      assert s == end + more && lines[1..] == later && ends[1..] == laterEnds;
      assert IsEnd(end);
      SplitApart(later, laterEnds, end);
    } else {
      lines, ends := [[s[0]] + later[0]] + later[1..], laterEnds;
      LongerLine(s[0], later, ends);
    }
  }

  lemma {:induction false} SplitApart(lines: seq<string>, ends: seq<string>, end: string)
    requires AreLines(lines, ends) && IsEnd(end)
    requires end == "\r" ==> Joined(lines, ends) == "" || Joined(lines, ends)[0] != '\n'
    ensures AreLines([""] + lines, [end] + ends)
  {
    var l, e := [""] + lines, [end] + ends;
    forall k | 0 <= k < |e| - 1
      ensures !(e[k] == "\r" && l[k + 1] == "" && e[k + 1] == "\n")
    {
      if k > 0 {
        assert e[k] == ends[k - 1] && l[k + 1] == lines[k] && e[k + 1] == ends[k];
      } else if lines[0] == "" && ends[0] == "\n" {
        assert Joined(lines, ends)[0] == '\n';
      }
    }
  }

  lemma {:induction false} LongerLine(c: char, lines: seq<string>, ends: seq<string>)
    requires AreLines(lines, ends) && c != '\r' && c != '\n'
    ensures AreLines([[c] + lines[0]] + lines[1..], ends)
    ensures Joined([[c] + lines[0]] + lines[1..], ends) == [c] + Joined(lines, ends)
  {
    var l := [[c] + lines[0]] + lines[1..];
    assert l[1..] == lines[1..];
    assert forall k | 1 <= k < |l| :: l[k] == lines[k];
  }

  // ---------------------------------------------------------------------------------- text and blanks

  lemma {:induction false} DecodedIsRun(s: string, mode: Mode)
    ensures Ranked(PREDEFINED, RANK) && Decoded(s, mode) == RunText(NewLines(s), PREDEFINED, RANK, mode)
  {
    hide Run, RefsBelow, Ranked, NewLines;
    PredefinedRanked();
  }

  lemma {:induction false} NewLinesConcat(a: string, b: string)
    requires a == "" || b == "" || !(a[|a| - 1] == '\r' && b[0] == '\n')
    ensures NewLines(a + b) == NewLines(a) + NewLines(b)
    decreases |a|
  {
    hide NewLines;
    if a == "" {
      assert a + b == b;
      NewLinesWithoutReturns("");
      assert "" + NewLines(b) == NewLines(b);
    } else {
      var more := if a[0] == '\r' && |a| > 1 && a[1] == '\n' then a[2..] else a[1..];
      NewLinesHead(a, b, more);
      assert more != "" ==> more[|more| - 1] == a[|a| - 1];
      NewLinesConcat(more, b);
      var c := [if a[0] == '\r' then '\n' else a[0]];
      assert c + (NewLines(more) + NewLines(b)) == (c + NewLines(more)) + NewLines(b);
    }
  }

  lemma {:induction false} NewLinesHead(a: string, b: string, more: string)
    requires a != "" && more == if a[0] == '\r' && |a| > 1 && a[1] == '\n' then a[2..] else a[1..]
    requires |a| == 1 && b != "" ==> !(a[0] == '\r' && b[0] == '\n')
    ensures var c := if a[0] == '\r' then '\n' else a[0];
            NewLines(a) == [c] + NewLines(more) && NewLines(a + b) == [c] + NewLines(more + b)
  {
    var k := |a| - |more|;
    assert (a + b)[k..] == more + b;
    if |a| > 1 {
      assert (a + b)[1] == a[1];
    } else if b != "" {
      assert (a + b)[1] == b[0];
    }
  }

  lemma {:induction false} ClosedNewLines(s: string)
    requires Closed(s)
    ensures Closed(NewLines(s))
    decreases |s|
  {
    if s != "" {
      var more := if s[0] == '\r' && |s| > 1 && s[1] == '\n' then s[2..] else s[1..];
      ClosedSuffix(s, |s| - |more|);
      ClosedNewLines(more);
      if s[0] == '&' {
        SemicolonKept(more);
        assert NewLines(s)[1..] == NewLines(more);
      } else {
        assert NewLines(s)[1..] == NewLines(more);
      }
    }
  }

  lemma {:induction false} SemicolonKept(s: string)
    requires ';' in s
    ensures ';' in NewLines(s)
    decreases |s|
  {
    if s[0] != ';' {
      var more := if s[0] == '\r' && |s| > 1 && s[1] == '\n' then s[2..] else s[1..];
      assert ';' in more by {
        var k :| 0 <= k < |s| && s[k] == ';';
        assert more[k - (|s| - |more|)] == ';';
      }
      SemicolonKept(more);
    }
  }

  /** Decoding in two parts, cut neither through a reference nor through a line end. */
  lemma {:induction false} DecodedConcat(a: string, b: string, mode: Mode)
    requires Closed(a) && (a == "" || b == "" || !(a[|a| - 1] == '\r' && b[0] == '\n'))
    ensures Decoded(a + b, mode) == Decoded(a, mode) + Decoded(b, mode)
  {
    hide Closed, RunText, NewLines, Decoded;
    NewLinesConcat(a, b);
    ClosedNewLines(a);
    RunTextConcat(NewLines(a), NewLines(b), mode);
    DecodedIsRun(a, mode);
    DecodedIsRun(b, mode);
    DecodedIsRun(a + b, mode);
  }

  /** A character by itself. */
  function Shown(c: char, mode: Mode): char {
    if mode == Attribute && c in [' ', '\t', '\n', 11 as char, 12 as char] then ' ' else c
  }

  lemma {:induction false} DecodesChar(c: char, mode: Mode)
    requires c != '\r' && (c != '&' || mode == CData)
    ensures Decoded([c], mode) == [Shown(c, mode)]
  {
    hide RunText, Decoded, Ranked;
    DecodedIsRun([c], mode);
    assert NewLines([c]) == [c] by {
      assert [c][1..] == "";
    }
    OnePlain([c], PREDEFINED, RANK, mode, [Shown(c, mode)]);
  }

  /** Text without references and CR: only attributes change, and in them every blank becomes a space. */
  lemma {:induction false} DecodesPlain(s: string, mode: Mode)
    requires forall i | 0 <= i < |s| :: s[i] != '&' && s[i] != '\r'
    ensures |Decoded(s, mode)| == |s| && forall i | 0 <= i < |s| :: Decoded(s, mode)[i] == Shown(s[i], mode)
  {
    hide Decoded, Closed;
    if s == "" {
      DecodesNothing(mode);
    } else {
      ClosedNoAmp([s[0]]);
      DecodedConcat([s[0]], s[1..], mode);
      assert [s[0]] + s[1..] == s;
      DecodesChar(s[0], mode);
      DecodesPlain(s[1..], mode);
    }
  }

  lemma {:induction false} DecodesNothing(mode: Mode)
    ensures Decoded("", mode) == ""
  {
    hide Run, RefsBelow, Ranked;
    DecodedIsRun("", mode);
    RunEmpty(PREDEFINED, RANK, mode, Bound(RANK));
  }

  /** In a section no reference is one: nothing but line ends is rewritten. */
  lemma {:induction false} SectionStays(s: string)
    ensures Decoded(s, CData) == NewLines(s)
  {
    hide Run, RefsBelow, Ranked, NewLines;
    PredefinedRanked();
    var h := Bound(RANK);
    BelowBound(PREDEFINED, RANK, NewLines(s));
    RunSection(NewLines(s), h);
  }

  lemma {:induction false} RunSection(s: string, h: nat)
    requires Ranked(PREDEFINED, RANK) && RefsBelow(PREDEFINED, RANK, s, h)
    ensures Run(s, PREDEFINED, RANK, CData, h).text == s
  {
    hide Run, RefsBelow, Ranked;
    if s == "" {
      RunNothing(h);
    } else {
      PlainStep(s, PREDEFINED, RANK, CData, h);
      RunSection(s[1..], h);
    }
  }

  lemma {:induction false} RunNothing(h: nat)
    requires Ranked(PREDEFINED, RANK) && RefsBelow(PREDEFINED, RANK, "", h)
    ensures Run("", PREDEFINED, RANK, CData, h).text == ""
  {
  }

  // --------------------------------------------------------------------------------------- references

  /** The five references that need no declaration. */
  lemma {:induction false} DecodesNamed(mode: Mode)
    requires mode != CData
    ensures Decoded("&lt;", mode) == "<" && Decoded("&gt;", mode) == ">" && Decoded("&amp;", mode) == "&"
    ensures Decoded("&quot;", mode) == "\"" && Decoded("&apos;", mode) == "'"
  {
    hide RunText, Decoded;
    assert PREDEFINED[0].name == "lt;" && PREDEFINED[1].name == "gt;" && PREDEFINED[2].name == "quot;";
    assert PREDEFINED[3].name == "apos;" && PREDEFINED[4].name == "amp;";
    assert "&" + "lt;" == "&lt;" && "&" + "gt;" == "&gt;" && "&" + "amp;" == "&amp;";
    assert "&" + "quot;" == "&quot;" && "&" + "apos;" == "&apos;";
    NamedOne("lt;", 0, '<', mode);
    NamedOne("gt;", 1, '>', mode);
    NamedOne("quot;", 2, '"', mode);
    NamedOne("apos;", 3, '\'', mode);
    NamedOne("amp;", 4, '&', mode);
  }

  lemma {:induction false} NamedOne(name: string, j: nat, c: char, mode: Mode)
    requires mode != CData && j < 5 && PREDEFINED[j].name == name && c as int == [60, 62, 34, 39, 38][j]
    requires forall i | 0 <= i < |name| :: name[i] != '\r'
    ensures Decoded("&" + name, mode) == [c]
  {
    hide RunText, Decoded;
    var s := "&" + name;
    DecodedIsRun(s, mode);
    NewLinesWithoutReturns(s);
    PredefinedRef(j, c as int, mode);
  }

  /** A reference stands for the same character wherever it is. */
  lemma {:induction false} ReferenceWithin(a: string, ref: string, b: string, mode: Mode)
    requires Closed(a) && Closed(ref) && ref != "" && ref[0] == '&' && ref[|ref| - 1] == ';'
    ensures Decoded(a + (ref + b), mode) == Decoded(a, mode) + (Decoded(ref, mode) + Decoded(b, mode))
  {
    hide Decoded, Closed;
    DecodedConcat(ref, b, mode);
    DecodedConcat(a, ref + b, mode);
  }

  /** The numeral of `n` with these digits. */
  function Numeral(n: nat, digits: string): (s: string)
    requires AreDigits(digits)
    ensures s != ""
  {
    if n < |digits| then [digits[n]] else Numeral(n / |digits|, digits) + [digits[n % |digits|]]
  }

  predicate AreDigits(digits: string) {
    digits == "0123456789" || digits == "0123456789abcdef" || digits == "0123456789ABCDEF"
  }

  predicate IsDigit(c: char, base: nat) {
    DigitValue(c, base) >= 0 && c !in ";+-xX&\r" && !IsSpace(c)
  }

  lemma {:induction false} DigitAt(digits: string, d: nat)
    requires AreDigits(digits) && d < |digits|
    ensures DigitValue(digits[d], |digits|) == d && IsDigit(digits[d], |digits|)
  {
  }

  predicate AllDigits(s: string, base: nat) {
    forall i | 0 <= i < |s| :: IsDigit(s[i], base)
  }

  lemma {:induction false} NumeralValue(n: nat, digits: string)
    requires AreDigits(digits)
    ensures AllDigits(Numeral(n, digits), |digits|) && NumeralOf(Numeral(n, digits), |digits|, n)
  {
    hide DigitValue, IsDigit, DigitsValue, AllDigits, NumeralOf, Numeral;
    var base := |digits|;
    NumeralIs(n, digits);
    if n < base {
      DigitAt(digits, n);
      OneDigit(digits[n], base);
    } else {
      var q, d := Divided(n, base);
      DigitAt(digits, d);
      NumeralValue(q, digits);
      MoreDigits(Numeral(q, digits), base, q, digits[d]);
    }
  }

  lemma {:induction false} NumeralIs(n: nat, digits: string)
    requires AreDigits(digits)
    ensures n < |digits| ==> Numeral(n, digits) == [digits[n]]
    ensures n >= |digits| ==> Numeral(n, digits) == Numeral(n / |digits|, digits) + [digits[n % |digits|]]
  {
    hide AreDigits;
  }

  lemma {:induction false} Divided(n: nat, base: nat) returns (q: nat, d: nat)
    requires 2 <= base <= n
    ensures q == n / base && d == n % base && d < base && q < n && q * base + d == n
  {
    q, d := n / base, n % base;
  }

  predicate NumeralOf(s: string, base: nat, n: nat)
    requires AllDigits(s, base)
  {
    DigitsValue(s, base) == n
  }

  lemma {:induction false} OneDigit(c: char, base: nat)
    requires IsDigit(c, base)
    ensures AllDigits([c], base) && NumeralOf([c], base, DigitValue(c, base))
  {
    assert [c][..0] == [];
  }

  lemma {:induction false} MoreDigits(s: string, base: nat, n: nat, c: char)
    requires AllDigits(s, base) && NumeralOf(s, base, n) && IsDigit(c, base)
    ensures AllDigits(s + [c], base) && NumeralOf(s + [c], base, n * base + DigitValue(c, base))
  {
    hide DigitValue;
    assert (s + [c])[..|s|] == s;
  }

  lemma {:induction false} DigitSpanAll(s: string, base: nat)
    requires base <= 16 && AllDigits(s, base)
    ensures DigitSpan(s + ";", base) == |s|
  {
    hide DigitValue;
    if s == "" {
      assert DigitValue(';', base) == -1 by { SemicolonNoDigit(base); }
      assert s + ";" == ";";
    } else {
      assert (s + ";")[1..] == s[1..] + ";";
      DigitSpanAll(s[1..], base);
    }
  }

  lemma {:induction false} SemicolonNoDigit(base: nat)
    ensures DigitValue(';', base) == -1
  {
  }

  lemma {:induction false} NumeralReads(n: nat, digits: string)
    requires AreDigits(digits) && n <= LONG_MAX
    ensures StrToL(Numeral(n, digits) + ";", |digits|) == (n, |Numeral(n, digits)|)
  {
    hide DigitValue, IsSpace, Numeral, DigitsValue, DigitSpan, SpaceSpan;
    var s, base := Numeral(n, digits), |digits|;
    assert base == 10 || base == 16;
    hide AreDigits;
    NumeralValue(n, digits);
    assert IsDigit(s[0], base);
    DigitSpanAll(s, base);
    var t := s + ";";
    assert t[0] == s[0];
    NoSpan(t);
    assert SignEnd(t) == 0 && t[0..] == t;
    assert t[1] !in "xX" by {
      assert |s| > 1 ==> IsDigit(s[1], base);
    }
    assert DigitsStart(t, base) == 0;
    assert t[..|s|] == s;
  }

  /** The number of 64 bits next to `v`. */
  function Long(v: int): int {
    if v < -0x8000_0000_0000_0000 then -0x8000_0000_0000_0000
    else if v > 0x7FFF_FFFF_FFFF_FFFF then 0x7FFF_FFFF_FFFF_FFFF
    else v
  }

  /** Blanks, a sign and in base 16 a `0x` may stand in front of the digits; numbers too large are cut. */
  lemma {:induction false} NumeralForms(lead: string, sign: string, hex: string, n: nat, digits: string)
    requires forall i | 0 <= i < |lead| :: lead[i] in [' ', '\t', '\n', '\r', 11 as char, 12 as char]
    requires sign in ["", "+", "-"] && AreDigits(digits)
    requires hex == "" || (digits != "0123456789" && hex in ["0x", "0X"])
    ensures var s := lead + (sign + (hex + (Numeral(n, digits) + ";")));
            StrToL(s, |digits|) == (Long(if sign == "-" then -(n as int) else n as int), |s| - 1)
  {
    hide *;
    var base, m := |digits|, Numeral(n, digits);
    var number := m + ";";
    var s := lead + (sign + (hex + number));
    NumeralStarts(n, digits);
    NumeralParts(n, digits);
    HexBase(digits);
    SignSpans(lead, sign, hex + number);
    PrefixSpans(hex, number, base);
    PartsRead(s, |lead| + |sign|, hex, m, base, n);
  }

  lemma {:induction false} HexBase(digits: string)
    requires AreDigits(digits)
    ensures digits == "0123456789" ==> |digits| == 10
    ensures digits != "0123456789" ==> |digits| == 16
  {
  }

  /** The parts of a number, put together. */
  lemma {:induction false} PartsRead(s: string, j: nat, hex: string, m: string, base: nat, n: nat)
    requires SignEnd(s) == j <= |s| && s[j..] == hex + (m + ";")
    requires if hex == "" then !HexPrefix(s[j..]) else |hex| == 2 && base == 16 && HexPrefix(s[j..])
    requires DigitSpan(m + ";", base) == |m| > 0 && AllDigits(m, base) && DigitsValue(m, base) == n
    ensures StrToL(s, base) == (Long(if Negative(s) then -(n as int) else n as int), |s| - 1)
  {
    hide DigitsValue, DigitSpan, SignEnd, HexPrefix, DigitValue, IsDigit, Negative;
    var k := j + |hex|;
    assert DigitsStart(s, base) == k;
    assert s[k..] == s[j..][|hex|..] == m + ";";
    assert (m + ";")[..|m|] == m;
  }

  /** The sign behind blanks. */
  lemma {:induction false} SignSpans(lead: string, sign: string, r: string)
    requires forall i | 0 <= i < |lead| :: lead[i] in [' ', '\t', '\n', '\r', 11 as char, 12 as char]
    requires sign in ["", "+", "-"] && r != "" && r[0] !in "+-" && !IsSpace((sign + r)[0])
    ensures var s := lead + (sign + r);
            && SignEnd(s) == |lead| + |sign| && s[|lead| + |sign|..] == r && (Negative(s) <==> sign == "-")
  {
    hide SpaceSpan, IsSpace;
    var t := sign + r;
    LeadSpans(lead, t);
    assert (lead + t)[|lead|] == t[0];
    assert sign != "" ==> t[0] == sign[0];
  }

  lemma {:induction false} LeadSpans(lead: string, t: string)
    requires forall i | 0 <= i < |lead| :: lead[i] in [' ', '\t', '\n', '\r', 11 as char, 12 as char]
    requires t != "" && !IsSpace(t[0])
    ensures SpaceSpan(lead + t) == |lead|
  {
    if lead == "" {
      assert lead + t == t;
    } else {
      assert (lead + t)[1..] == lead[1..] + t;
      LeadSpans(lead[1..], t);
    }
  }

  lemma {:induction false} NumeralStarts(n: nat, digits: string)
    requires AreDigits(digits)
    ensures var s := Numeral(n, digits) + ";"; |s| > 1 && IsDigit(s[0], |digits|) && s[1] !in "xX"
    ensures forall hex: string | hex in ["", "0x", "0X"] ::
              hex + (Numeral(n, digits) + ";") != "" && (hex + (Numeral(n, digits) + ";"))[0] !in "+-"
    ensures forall sign: string, hex: string | sign in ["", "+", "-"] && hex in ["", "0x", "0X"] ::
              !IsSpace((sign + (hex + (Numeral(n, digits) + ";")))[0])
  {
    hide Numeral, DigitValue;
    NumeralValue(n, digits);
    var m := Numeral(n, digits);
    assert IsDigit(m[0], |digits|) && (|m| > 1 ==> IsDigit(m[1], |digits|));
    assert (m + ";")[0] == m[0] && (|m| > 1 ==> (m + ";")[1] == m[1]);
  }

  lemma {:induction false} PrefixSpans(hex: string, number: string, base: nat)
    requires |number| > 1 && IsDigit(number[0], base) && number[1] !in "xX"
    requires hex == "" || (base == 16 && hex in ["0x", "0X"])
    ensures hex == "" ==> !HexPrefix(hex + number)
    ensures hex != "" ==> HexPrefix(hex + number)
  {
    hide DigitValue;
    if hex == "" {
      assert hex + number == number;
    } else {
      assert (hex + number)[0] == '0' && (hex + number)[2] == number[0];
    }
  }

  lemma {:induction false} NumeralParts(n: nat, digits: string)
    requires AreDigits(digits)
    ensures var m, base := Numeral(n, digits), |digits|;
            && DigitSpan(m + ";", base) == |m| > 0 && (m + ";")[..|m|] == m
            && AllDigits(m, base) && DigitsValue(m, base) == n
  {
    hide Numeral, DigitValue, DigitsValue, DigitSpan, IsSpace;
    assert |digits| <= 16;
    NumeralValue(n, digits);
    DigitSpanAll(Numeral(n, digits), |digits|);
  }

  lemma {:induction false} NoSpan(s: string)
    requires s != "" && !IsSpace(s[0])
    ensures SpaceSpan(s) == 0
  {
  }

  /** Every code point, by its decimal numeral or by its hexadecimal one in either case. */
  lemma {:induction false} DecodesCode(c: nat, mode: Mode)
    requires 0 < c <= 0x10FFFF && mode != CData
    ensures Decoded("&#" + (Numeral(c, "0123456789") + ";"), mode) == Utf8.Rfc3629(c)
    ensures Decoded("&#x" + (Numeral(c, "0123456789abcdef") + ";"), mode) == Utf8.Rfc3629(c)
    ensures Decoded("&#x" + (Numeral(c, "0123456789ABCDEF") + ";"), mode) == Utf8.Rfc3629(c)
  {
    hide Decoded, Numeral;
    CodeOne("&#", c, "0123456789", mode);
    CodeOne("&#x", c, "0123456789abcdef", mode);
    CodeOne("&#x", c, "0123456789ABCDEF", mode);
  }

  lemma {:induction false} CodeOne(lead: string, c: nat, digits: string, mode: Mode)
    requires 0 < c <= 0x10FFFF && mode != CData && AreDigits(digits)
    requires lead == if digits == "0123456789" then "&#" else "&#x"
    ensures Decoded(lead + (Numeral(c, digits) + ";"), mode) == Utf8.Rfc3629(c)
  {
    hide Decoded, Numeral, StrToL, Utf8.Rfc3629, Utf8.Encoding, RunText, Ranked, NewLines;
    var t := Numeral(c, digits) + ";";
    var s := lead + t;
    CodeRefReads(lead, c, digits);
    DecodedIsRun(s, mode);
    NewLinesWithoutReturns(s);
    Utf8.EncodingIsStandard(c);
    CodeText(c);
    OnePlain(s, PREDEFINED, RANK, mode, Utf8.Rfc3629(c));
  }

  lemma {:induction false} CodeText(c: nat)
    requires 0 < c <= 0x10FFFF
    ensures CharText(c) == Utf8.Encoding(c)
  {
  }

  lemma {:induction false} CodeRefReads(lead: string, c: nat, digits: string)
    requires 0 < c <= 0x10FFFF && AreDigits(digits)
    requires lead == if digits == "0123456789" then "&#" else "&#x"
    ensures var s := lead + (Numeral(c, digits) + ";");
            && "&#" <= s && ReadCharRef(s) == Ref(c, |s| - 1)
            && forall i | 0 <= i < |s| :: s[i] != '\r'
  {
    hide Numeral, StrToL, DigitValue, IsSpace, DigitsValue;
    var n := Numeral(c, digits);
    var t := n + ";";
    var s := lead + t;
    NumeralReads(c, digits);
    NumeralValue(c, digits);
    assert forall i | 0 <= i < |n| :: IsDigit(n[i], |digits|);
    assert s[|lead|..] == t;
    assert s[|lead|] == t[0] == n[0];
    assert |digits| == if lead == "&#" then 10 else 16;
  }

  /** A reference to nothing that is declared stays, as does one to no character. */
  lemma {:induction false} UnknownStays(mode: Mode)
    requires mode != CData
    ensures Decoded("&foo;", mode) == "&foo;" && Decoded("&#0;", mode) == "&#0;" && Decoded("&", mode) == "&"
  {
    hide Decoded;
    StaysBehind("foo;", mode);
    StaysBehind("#0;", mode);
    StaysBehind("", mode);
    assert "&" + "" == "&" && "&" + "foo;" == "&foo;" && "&" + "#0;" == "&#0;";
    DecodesPlain("foo;", mode);
    DecodesPlain("#0;", mode);
    DecodesNothing(mode);
    assert Decoded("foo;", mode) == "foo;" && Decoded("#0;", mode) == "#0;";
  }

  lemma {:induction false} StaysBehind(t: string, mode: Mode)
    requires t in ["foo;", "#0;", ""] && mode != CData
    ensures Decoded("&" + t, mode) == "&" + Decoded(t, mode)
  {
    hide Run, RefsBelow, Ranked;
    var s := "&" + t;
    PredefinedRanked();
    var h := Bound(RANK);
    NewLinesWithoutReturns(s);
    NewLinesWithoutReturns(t);
    assert s[1..] == t;
    BelowBound(PREDEFINED, RANK, s);
    BelowBound(PREDEFINED, RANK, t);
    assert NextPiece(s, PREDEFINED, mode) == Plain("&", 1) by { NoReference(t, mode); }
    PlainStep(s, PREDEFINED, RANK, mode, h);
  }

  lemma {:induction false} NoReference(t: string, mode: Mode)
    requires t in ["foo;", "#0;", ""] && mode != CData
    ensures NextPiece("&" + t, PREDEFINED, mode) == Plain("&", 1)
  {
    var s := "&" + t;
    assert s[1..] == t;
    if t == "#0;" {
      assert s[2..] == "0;" && "0;"[1..] == ";" && "0;"[..1] == "0" && "0"[..0] == "" && "0;"[0..] == "0;";
      assert DigitSpan(";", 10) == 0 && DigitSpan("0;", 10) == 1 && SpaceSpan("0;") == 0;
      assert DigitsStart("0;", 10) == 0 && DigitsValue("0", 10) == 0;
      assert StrToL("0;", 10) == (0, 1);
    } else if t == "foo;" {
      assert s[1] == 'f';
    }
  }

  // ------------------------------------------------------------------------------------------ encoding

  /** What the printer writes for each character. */
  lemma {:induction false} EscapeTable(attribute: bool)
    ensures Escape("&", attribute) == "&amp;" && Escape("<", attribute) == "&lt;" && Escape(">", attribute) == "&gt;"
    ensures Escape("\r", attribute) == "&#xD;"
    ensures Escape("\"", attribute) == (if attribute then "&quot;" else "\"")
    ensures Escape("\n", attribute) == (if attribute then "&#xA;" else "\n")
    ensures Escape("\t", attribute) == (if attribute then "&#x9;" else "\t")
    ensures forall c | c !in "&<>\r\"\n\t" :: Escape([c], attribute) == [c]
  {
    forall c: char
      ensures Escape([c], attribute) == EscapeChar(c, attribute)
    {
      assert [c][1..] == "" && EscapeChar(c, attribute) + "" == EscapeChar(c, attribute);
    }
    assert Escape("&", attribute) == Escape(['&'], attribute);
  }
}

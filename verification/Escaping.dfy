/** The ampersand encoding of the printer, and its inverse relation to the decoder. */
module Escaping {
  import opened Chars
  import opened Entities
  import opened Decoding

  function EscapeChar(c: char, attribute: bool): string {
    if c == '&' then "&amp;"
    else if c == '<' then "&lt;"
    else if c == '>' then "&gt;"
    else if c == '"' && attribute then "&quot;"
    else if c == '\n' && attribute then "&#xA;"
    else if c == '\t' && attribute then "&#x9;"
    else if c == '\r' then "&#xD;"
    else [c]
  }

  function Escape(s: string, attribute: bool): string {
    if s == "" then "" else EscapeChar(s[0], attribute) + Escape(s[1..], attribute)
  }

  ghost const RANK: seq<nat> := [0, 0, 0, 0, 0]

  /** Decoding with the predefined entities. */
  ghost function Decoded(s: string, mode: Mode): string {
    PredefinedRanked();
    Expand(NewLines(s), PREDEFINED, RANK, mode)
  }

  /** Attribute decoding turns vertical tab and form feed into a space. */
  function Blanked(s: string, mode: Mode): (r: string)
    ensures |r| == |s|
  {
    if s == "" then ""
    else [if mode == Attribute && (s[0] == 11 as char || s[0] == 12 as char) then ' ' else s[0]] + Blanked(s[1..], mode)
  }

  // ------------------------------------------------------------------------- reading single escapes

  lemma {:induction false} DecimalRef(a: char, b: char)
    requires '0' <= a <= '9' && '0' <= b <= '9' && (a != '0' || b != '0')
    ensures ReadCharRef(['&', '#', a, b, ';']) == Ref(10 * (a as int - '0' as int) + (b as int - '0' as int), 4)
  {
    var s := [a, b, ';'];
    assert ['&', '#', a, b, ';'][2..] == s;
    TwoDigits(a, b);
  }

  lemma {:induction false} TwoDigits(a: char, b: char)
    requires '0' <= a <= '9' && '0' <= b <= '9'
    ensures StrToL([a, b, ';'], 10) == (10 * (a as int - '0' as int) + (b as int - '0' as int), 2)
  {
    var s := [a, b, ';'];
    assert SpaceSpan(s) == 0 && SignEnd(s) == 0 && DigitsStart(s, 10) == 0;
    assert s[0..] == s && s[1..] == [b, ';'] && [b, ';'][1..] == [';'];
    assert DigitSpan([';'], 10) == 0 && DigitSpan([b, ';'], 10) == 1 && DigitSpan(s, 10) == 2;
    assert s[..2] == [a, b] && [a, b][..1] == [a] && [a][..0] == [];
    assert DigitsValue([a], 10) == a as int - '0' as int;
  }

  lemma {:induction false} HexRef(d: char)
    requires d == 'A' || d == 'D' || d == '9'
    ensures ReadCharRef(['&', '#', 'x', d, ';']) == Ref(DigitValue(d, 16), 4)
  {
    var s := [d, ';'];
    assert ['&', '#', 'x', d, ';'][3..] == s;
    assert SpaceSpan(s) == 0 && SignEnd(s) == 0 && DigitsStart(s, 16) == 0;
    assert s[0..] == s && s[1..] == [';'];
    assert DigitSpan([';'], 16) == 0 && DigitSpan(s, 16) == 1;
    assert s[..1] == [d] && [d][..0] == [];
    assert DigitsValue([d], 16) == DigitValue(d, 16);
  }

  ghost function RunText(s: string, ents: seq<Entity>, rank: seq<nat>, mode: Mode): string
    requires Ranked(ents, rank)
  {
    BelowBound(ents, rank, s);
    Run(s, ents, rank, mode, Bound(rank)).text
  }

  /** A text read as one plain piece. */
  lemma {:induction false} OnePlain(s: string, ents: seq<Entity>, rank: seq<nat>, mode: Mode, out: string)
    requires Ranked(ents, rank) && s != "" && NextPiece(s, ents, mode) == Plain(out, |s|)
    ensures RunText(s, ents, rank, mode) == out
  {
    hide NextPiece, Run, RefsBelow;
    BelowBound(ents, rank, s);
    PlainStep(s, ents, rank, mode, Bound(rank));
    assert s[|s|..] == "";
    RunEmpty(ents, rank, mode, Bound(rank));
  }

  /** A reference to an entity whose text is a character reference is read as that character. */
  lemma {:induction false} EntityRef(ents: seq<Entity>, rank: seq<nat>, j: nat, code: int, mode: Mode)
    requires Ranked(ents, rank) && WellFormed(ents)
    requires j < |ents| && Find(ents, ents[j].name) == j && ents[j].name[0] != '#'
    requires mode != CData && 0 < code < 0x80
    requires "&#" <= ents[j].value && ReadCharRef(ents[j].value) == Ref(code, |ents[j].value| - 1)
    ensures RunText("&" + ents[j].name, ents, rank, mode) == [code as char]
  {
    hide Run, RefsBelow, ReadCharRef, Find;
    var s, h, value := "&" + ents[j].name, Bound(rank), ents[j].value;
    assert s[1..] == ents[j].name;
    assert s[1] == ents[j].name[0];
    assert NextPiece(s, ents, mode) == Reference(j, |s|);
    BelowBound(ents, rank, s);
    ReferenceStep(s, ents, rank, mode, h);
    assert value + s[|s|..] == value;
    assert NextPiece(value, ents, mode) == Plain([code as char], |value|);
    OnePlain(value, ents, rank, mode, [code as char]);
  }

  // ------------------------------------------------------------------------- predefined entities

  /** No predefined name is a prefix of another. */
  lemma {:induction false} FindPredefined(j: nat, i: nat := 0)
    requires i <= j < |PREDEFINED|
    ensures FindFrom(PREDEFINED, PREDEFINED[j].name, i) == j
    decreases j - i
  {
    if i < j {
      assert PREDEFINED[i].name[0] != PREDEFINED[j].name[0] || PREDEFINED[i].name[1] != PREDEFINED[j].name[1];
      FindPredefined(j, i + 1);
    }
  }

  lemma {:induction false} ClosedNoAmp(s: string)
    requires forall i | 0 <= i < |s| :: s[i] != '&'
    ensures Closed(s)
  {
    if s != "" {
      ClosedNoAmp(s[1..]);
    }
  }

  /** One ampersand in front and a semicolon behind. */
  lemma {:induction false} ClosedRef(s: string)
    requires |s| > 1 && s[|s| - 1] == ';' && forall i | 0 < i < |s| :: s[i] != '&'
    ensures Closed(s)
  {
    assert s[1..][|s| - 2] == ';';
    ClosedNoAmp(s[1..]);
  }

  lemma {:induction false} PredefinedWellFormed()
    ensures Ranked(PREDEFINED, RANK) && WellFormed(PREDEFINED)
  {
    hide IsName, Closed, Ranked;
    PredefinedRanked();
    forall i | 0 <= i < |PREDEFINED|
      ensures IsName(PREDEFINED[i].name) && Closed(PREDEFINED[i].value)
    {
      PredefinedEntity(i);
    }
  }

  lemma {:induction false} PredefinedEntity(i: nat)
    requires i < |PREDEFINED|
    ensures IsName(PREDEFINED[i].name) && PREDEFINED[i].name[0] != '#'
    ensures Closed(PREDEFINED[i].value)
  {
    hide Closed;
    ClosedRef(PREDEFINED[i].value);
  }

  lemma {:induction false} PredefinedRef(j: nat, code: int, mode: Mode)
    requires j < |PREDEFINED| && mode != CData
    requires code == [60, 62, 34, 39, 38][j]
    ensures Ranked(PREDEFINED, RANK) && RunText("&" + PREDEFINED[j].name, PREDEFINED, RANK, mode) == [code as char]
  {
    hide Run, RefsBelow, ReadCharRef, RunText, Ranked, WellFormed;
    PredefinedWellFormed();
    FindPredefined(j);
    PredefinedCode(j);
    PredefinedEntity(j);
    EntityRef(PREDEFINED, RANK, j, code, mode);
  }

  lemma {:induction false} PredefinedCode(j: nat)
    requires j < |PREDEFINED|
    ensures "&#" <= PREDEFINED[j].value && ReadCharRef(PREDEFINED[j].value) == Ref([60, 62, 34, 39, 38][j], 4)
  {
    hide ReadCharRef;
    var v := PREDEFINED[j].value;
    assert v == ['&', '#', v[2], v[3], ';'];
    DecimalRef(v[2], v[3]);
  }

  // --------------------------------------------------------------------------------- the round trip

  lemma {:induction false} EscapeCharClosed(c: char, attribute: bool)
    ensures Closed(EscapeChar(c, attribute))
  {
    hide Closed;
    var s := EscapeChar(c, attribute);
    if |s| == 1 {
      ClosedNoAmp(s);
    } else {
      ClosedRef(s);
    }
  }

  /** One encoded character decodes to itself, but for the blanks of an attribute. */
  lemma {:induction false} EscapedChar(c: char, mode: Mode)
    requires mode != CData
    ensures Ranked(PREDEFINED, RANK)
    ensures RunText(EscapeChar(c, mode == Attribute), PREDEFINED, RANK, mode) == Blanked([c], mode)
  {
    hide RunText, Ranked, ReadCharRef;
    PredefinedRanked();
    var s := EscapeChar(c, mode == Attribute);
    assert [c][1..] == "";
    assert Blanked([c], mode) == [if mode == Attribute && (c == 11 as char || c == 12 as char) then ' ' else c];
    if |s| == 1 {
      OnePlain(s, PREDEFINED, RANK, mode, Blanked([c], mode));
    } else if s[1] == '#' {
      HexEscape(c, mode);
    } else {
      NamedEscape(c, mode);
    }
  }

  lemma {:induction false} NamedEscape(c: char, mode: Mode)
    requires mode != CData
    requires c == '&' || c == '<' || c == '>' || (c == '"' && mode == Attribute)
    ensures Ranked(PREDEFINED, RANK)
    ensures RunText(EscapeChar(c, mode == Attribute), PREDEFINED, RANK, mode) == [c]
  {
    hide RunText, Ranked;
    var j := if c == '<' then 0 else if c == '>' then 1 else if c == '"' then 2 else 4;
    assert EscapeChar(c, mode == Attribute) == "&" + PREDEFINED[j].name;
    PredefinedRef(j, c as int, mode);
  }

  lemma {:induction false} HexEscape(c: char, mode: Mode)
    requires mode != CData && (c == '\r' || (mode == Attribute && (c == '\n' || c == '\t')))
    requires Ranked(PREDEFINED, RANK)
    ensures RunText(EscapeChar(c, mode == Attribute), PREDEFINED, RANK, mode) == [c]
  {
    hide RunText, Ranked, ReadCharRef;
    HexRef('A');
    HexRef('D');
    HexRef('9');
    var s := EscapeChar(c, mode == Attribute);
    assert "&#" <= s;
    OnePlain(s, PREDEFINED, RANK, mode, [c]);
  }

  lemma {:induction false} EscapeConcat(a: string, b: string, attribute: bool)
    ensures Escape(a + b, attribute) == Escape(a, attribute) + Escape(b, attribute)
  {
    hide EscapeChar;
    if a == "" {
      assert a + b == b;
    } else {
      assert (a + b)[1..] == a[1..] + b;
      EscapeConcat(a[1..], b, attribute);
    }
  }

  lemma {:induction false} EscapeHasNoReturns(s: string, attribute: bool)
    ensures forall i | 0 <= i < |Escape(s, attribute)| :: Escape(s, attribute)[i] != '\r'
  {
    if s != "" {
      EscapeHasNoReturns(s[1..], attribute);
    }
  }

  lemma {:induction false} NewLinesWithoutReturns(s: string)
    requires forall i | 0 <= i < |s| :: s[i] != '\r'
    ensures NewLines(s) == s
  {
    if s != "" {
      NewLinesWithoutReturns(s[1..]);
    }
  }

  /** Decoding a closed text and what follows it. */
  lemma {:induction false} RunTextConcat(a: string, b: string, mode: Mode)
    requires Closed(a)
    ensures Ranked(PREDEFINED, RANK)
    ensures RunText(a + b, PREDEFINED, RANK, mode) == RunText(a, PREDEFINED, RANK, mode)
              + RunText(b, PREDEFINED, RANK, mode)
  {
    hide Run, RefsBelow, NextPiece, Ranked, WellFormed, Closed;
    PredefinedWellFormed();
    var h := Bound(RANK);
    BelowBound(PREDEFINED, RANK, a);
    BelowBound(PREDEFINED, RANK, b);
    BelowBound(PREDEFINED, RANK, a + b);
    RunConcat(a, b, PREDEFINED, RANK, mode, h);
  }

  lemma {:induction false} EscapedText(s: string, mode: Mode)
    requires mode != CData
    ensures Ranked(PREDEFINED, RANK)
    ensures RunText(Escape(s, mode == Attribute), PREDEFINED, RANK, mode) == Blanked(s, mode)
  {
    hide Ranked, WellFormed, Closed, EscapeChar, Run, RefsBelow;
    PredefinedWellFormed();
    if s == "" {
      BelowBound(PREDEFINED, RANK, "");
      RunEmpty(PREDEFINED, RANK, mode, Bound(RANK));
    } else {
      var c, rest := EscapeChar(s[0], mode == Attribute), Escape(s[1..], mode == Attribute);
      EscapeCharClosed(s[0], mode == Attribute);
      RunTextConcat(c, rest, mode);
      EscapedChar(s[0], mode);
      EscapedText(s[1..], mode);
      assert Blanked(s, mode) == Blanked([s[0]], mode) + Blanked(s[1..], mode) by {
        assert [s[0]][1..] == "";
      }
    }
  }

  /** Decoding undoes encoding, but for the blanks of an attribute. */
  lemma {:induction false} EncodedDecodes(s: string, mode: Mode)
    requires mode != CData
    ensures Decoded(Escape(s, mode == Attribute), mode) == Blanked(s, mode)
  {
    hide Run, RefsBelow, Ranked;
    PredefinedRanked();
    EscapeHasNoReturns(s, mode == Attribute);
    NewLinesWithoutReturns(Escape(s, mode == Attribute));
    EscapedText(s, mode);
  }

  /** Vertical tab and form feed, which attribute decoding takes for blanks. */
  predicate HasBlanks(s: string) {
    exists i :: 0 <= i < |s| && (s[i] == 11 as char || s[i] == 12 as char)
  }

  lemma {:induction false} BlankedAt(s: string, mode: Mode, i: nat)
    requires i < |s|
    ensures Blanked(s, mode)[i] == if mode == Attribute && (s[i] == 11 as char || s[i] == 12 as char) then ' ' else s[i]
  {
    if i > 0 {
      BlankedAt(s[1..], mode, i - 1);
    }
  }

  lemma {:induction false} BlankedText(s: string)
    ensures Blanked(s, Text) == s
  {
    if s != "" {
      BlankedText(s[1..]);
    }
  }

  /** Character data comes back as it was, whatever it holds. */
  lemma {:induction false} TextRoundTrip(s: string)
    ensures Decoded(Escape(s, false), Text) == s
  {
    EncodedDecodes(s, Text);
    BlankedText(s);
  }

  lemma {:induction false} BlankedIsSame(s: string)
    ensures Blanked(s, Attribute) == s <==> !HasBlanks(s)
  {
    hide Blanked;
    var b := Blanked(s, Attribute);
    forall i | 0 <= i < |s|
      ensures b[i] == if s[i] == 11 as char || s[i] == 12 as char then ' ' else s[i]
    {
      BlankedAt(s, Attribute, i);
    }
  }

  /** An attribute value comes back as it was if and only if it has no vertical tab or form feed. */
  lemma {:induction false} AttributeRoundTrip(s: string)
    ensures Decoded(Escape(s, true), Attribute) == s <==> !HasBlanks(s)
  {
    hide Decoded, Blanked, HasBlanks;
    EncodedDecodes(s, Attribute);
    BlankedIsSame(s);
  }
}

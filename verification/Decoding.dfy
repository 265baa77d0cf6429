/** Entity and character references: the in-place decoder, and the recursive expansion it computes. */
module Decoding {
  import opened Chars
  import opened Entities
  import Utf8

  /** Character data, attribute values, CDATA sections. */
  datatype Mode = Text | Attribute | CData

  // ---------------------------------------------------------------------------- character references

  datatype CharRef = NoRef | Ref(code: int, semi: nat)

  /** The character reference that `s` begins with, if any, and the index of its semicolon. */
  function ReadCharRef(s: string): (r: CharRef)
    requires "&#" <= s
    ensures r.Ref? ==> r.semi < |s| && s[r.semi] == ';'
  {
    if |s| > 2 && s[2] == 'x' then ReadNumber(s, 3, 16) else ReadNumber(s, 2, 10)
  }

  function ReadNumber(s: string, start: nat, base: nat): (r: CharRef)
    requires start <= |s|
    ensures r.Ref? ==> r.semi < |s| && s[r.semi] == ';'
  {
    var (code, n) := StrToL(s[start..], base);
    if code == 0 || start + n >= |s| || s[start + n] != ';' then NoRef else Ref(code, start + n)
  }

  /** The bytes a character reference stands for; a code below 0x80 is stored as one byte. */
  function CharText(code: int): string {
    if code < 0x80 then [Utf8.Byte(code)] else Utf8.Encoding(code)
  }

  // ------------------------------------------------------------------------------------- pieces

  datatype Piece = Plain(out: string, len: nat) | Reference(index: nat, len: nat)

  /** What the decoder does at the head of `s`: emit `out`, or put in the text of an entity. */
  function NextPiece(s: string, ents: seq<Entity>, mode: Mode): (t: Piece)
    requires s != ""
    ensures 0 < t.len <= |s|
    ensures t.Reference? ==> s[0] == '&' && t.index == Find(ents, s[1..]) < |ents|
  {
    if s[0] == '&' && mode != CData then
      if "&#" <= s then
        match ReadCharRef(s)
        case NoRef => Plain("&", 1)
        case Ref(code, semi) => Plain(CharText(code), semi + 1)
      else
        var j := Find(ents, s[1..]);
        if j < |ents| then Reference(j, |ents[j].name| + 1) else Plain("&", 1)
    else if mode == Attribute && IsSpace(s[0]) then Plain(" ", 1)
    else Plain([s[0]], 1)
  }

  // ----------------------------------------------------------------------------------- expansion

  /** The expanded text and the number of decoder steps it takes. */
  datatype Outcome = Outcome(text: string, steps: nat) {
    function Then(next: Outcome): Outcome {
      Outcome(text + next.text, steps + next.steps)
    }
  }

  lemma {:induction false} ThenAssociates(x: Outcome, y: Outcome, z: Outcome)
    ensures x.Then(y).Then(z) == x.Then(y.Then(z))
  {
    assert x.text + y.text + z.text == x.text + (y.text + z.text);
  }

  lemma {:induction false} SuffixBelow(ents: seq<Entity>, rank: seq<nat>, s: string, h: nat, k: nat)
    requires |rank| == |ents| && RefsBelow(ents, rank, s, h) && k <= |s|
    ensures RefsBelow(ents, rank, s[k..], h)
  {
    if k > 0 {
      SuffixBelow(ents, rank, s[1..], h, k - 1);
      assert s[1..][k - 1..] == s[k..];
    }
  }

  /** The recursive expansion: an entity reference stands for the expansion of the entity's text. */
  ghost function Run(s: string, ents: seq<Entity>, rank: seq<nat>, mode: Mode, h: nat): Outcome
    requires Ranked(ents, rank) && RefsBelow(ents, rank, s, h)
    decreases h, |s|
  {
    if s == "" then Outcome("", 0)
    else
      var t := NextPiece(s, ents, mode);
      SuffixBelow(ents, rank, s, h, t.len);
      var rest := Run(s[t.len..], ents, rank, mode, h);
      match t
      case Plain(out, _) => Outcome(out, 1).Then(rest)
      case Reference(j, _) => Outcome("", 1).Then(Run(ents[j].value, ents, rank, mode, rank[j])).Then(rest)
  }

  /** What the piece at the head of a text contributes. */
  ghost function Head(t: Piece, ents: seq<Entity>, rank: seq<nat>, mode: Mode): Outcome
    requires Ranked(ents, rank) && (t.Reference? ==> t.index < |ents|)
  {
    match t
    case Plain(out, _) => Outcome(out, 1)
    case Reference(j, _) => Outcome("", 1).Then(Run(ents[j].value, ents, rank, mode, rank[j]))
  }

  lemma {:induction false} RunHead(s: string, ents: seq<Entity>, rank: seq<nat>, mode: Mode, h: nat)
    requires Ranked(ents, rank) && RefsBelow(ents, rank, s, h) && s != ""
    ensures var t := NextPiece(s, ents, mode);
            && RefsBelow(ents, rank, s[t.len..], h)
            && Run(s, ents, rank, mode, h) == Head(t, ents, rank, mode).Then(Run(s[t.len..], ents, rank, mode, h))
  {
    SuffixBelow(ents, rank, s, h, NextPiece(s, ents, mode).len);
  }

  ghost function Expand(s: string, ents: seq<Entity>, rank: seq<nat>, mode: Mode): string
    requires Ranked(ents, rank)
  {
    BelowBound(ents, rank, s);
    Run(s, ents, rank, mode, Bound(rank)).text
  }

  /** Ranking and bound only serve termination. */
  lemma {:induction false} AnyRanking(s: string, ents: seq<Entity>, rank: seq<nat>, rank2: seq<nat>, mode: Mode,
      h: nat, h2: nat)
    requires Ranked(ents, rank) && RefsBelow(ents, rank, s, h)
    requires Ranked(ents, rank2) && RefsBelow(ents, rank2, s, h2)
    ensures Run(s, ents, rank, mode, h) == Run(s, ents, rank2, mode, h2)
    decreases h, |s|
  {
    hide NextPiece;
    if s != "" {
      var t := NextPiece(s, ents, mode);
      SuffixBelow(ents, rank, s, h, t.len);
      SuffixBelow(ents, rank2, s, h2, t.len);
      AnyRanking(s[t.len..], ents, rank, rank2, mode, h, h2);
      if t.Reference? {
        AnyRanking(ents[t.index].value, ents, rank, rank2, mode, rank[t.index], rank2[t.index]);
      }
    }
  }

  // ---------------------------------------------------------------------------- closed references

  /** Every ampersand is followed by a semicolon. */
  predicate Closed(s: string) {
    s == "" || ((s[0] == '&' ==> ';' in s[1..]) && Closed(s[1..]))
  }

  /** Names end in their only semicolon, and the references in the texts close there. */
  predicate WellFormed(ents: seq<Entity>) {
    forall i | 0 <= i < |ents| :: IsName(ents[i].name) && Closed(ents[i].value)
  }

  predicate IsName(name: string) {
    name != "" && name[|name| - 1] == ';' && forall i | 0 <= i < |name| - 1 :: name[i] != ';'
  }

  lemma {:induction false} ClosedSuffix(s: string, k: nat)
    requires Closed(s) && k <= |s|
    ensures Closed(s[k..])
  {
    if k > 0 {
      ClosedSuffix(s[1..], k - 1);
      assert s[1..][k - 1..] == s[k..];
    }
  }

  /** A name found at the head of a text with a semicolon lies within it. */
  lemma {:induction false} NameWithin(name: string, a: string, b: string)
    requires IsName(name) && ';' in a
    ensures name <= a + b <==> name <= a
  {
    var k :| 0 <= k < |a| && a[k] == ';';
    assert (a + b)[k] == ';';
    if |name| <= |a| {
      assert (a + b)[..|name|] == a[..|name|];
    } else {
      assert name[k] != (a + b)[k];
    }
  }

  lemma {:induction false} FindWithin(ents: seq<Entity>, a: string, b: string, i: nat := 0)
    requires i <= |ents| && forall k | 0 <= k < |ents| :: IsName(ents[k].name)
    requires ';' in a
    ensures FindFrom(ents, a + b, i) == FindFrom(ents, a, i)
    decreases |ents| - i
  {
    if i < |ents| {
      NameWithin(ents[i].name, a, b);
      FindWithin(ents, a, b, i + 1);
    }
  }

  lemma {:induction false} NumberWithin(a: string, b: string, start: nat, base: nat)
    requires start <= |a| && ';' in a[start..] && base <= 36
    ensures ReadNumber(a + b, start, base) == ReadNumber(a, start, base)
  {
    assert (a + b)[start..] == a[start..] + b;
    StrToLStops(a[start..], b, base);
  }

  lemma {:induction false} CharRefWithin(a: string, b: string)
    requires "&#" <= a && ';' in a
    ensures ReadCharRef(a + b) == ReadCharRef(a)
  {
    assert a[0] == '&' && a[1] == '#';
    SemicolonLater(a, 2);
    assert |a| > 2 && (a + b)[2] == a[2];
    if a[2] == 'x' {
      SemicolonLater(a, 3);
      NumberWithin(a, b, 3, 16);
    } else {
      NumberWithin(a, b, 2, 10);
    }
  }

  /** What follows a closed text does not change how its head is read. */
  lemma {:induction false} PieceWithin(a: string, b: string, ents: seq<Entity>, mode: Mode)
    requires WellFormed(ents) && Closed(a) && a != ""
    ensures NextPiece(a + b, ents, mode) == NextPiece(a, ents, mode)
  {
    assert (a + b)[0] == a[0] && (a + b)[1..] == a[1..] + b;
    if a[0] == '&' {
      assert a[1..][0] == a[1];
      assert "&#" <= a + b <==> "&#" <= a;
      if "&#" <= a {
        CharRefWithin(a, b);
      }
      FindWithin(ents, a[1..], b);
    }
  }

  /** Expansion distributes over a closed text and what follows. */
  lemma {:induction false} RunConcat(a: string, b: string, ents: seq<Entity>, rank: seq<nat>, mode: Mode, h: nat)
    requires Ranked(ents, rank) && WellFormed(ents) && Closed(a)
    requires RefsBelow(ents, rank, a, h) && RefsBelow(ents, rank, b, h) && RefsBelow(ents, rank, a + b, h)
    ensures Run(a + b, ents, rank, mode, h) == Run(a, ents, rank, mode, h).Then(Run(b, ents, rank, mode, h))
    decreases |a|
  {
    hide NextPiece;
    if a == "" {
      assert a + b == b;
    } else {
      var t := NextPiece(a, ents, mode);
      PieceWithin(a, b, ents, mode);
      RunHead(a, ents, rank, mode, h);
      RunHead(a + b, ents, rank, mode, h);
      assert (a + b)[t.len..] == a[t.len..] + b;
      ClosedSuffix(a, t.len);
      RunConcat(a[t.len..], b, ents, rank, mode, h);
      ThenAssociates(Head(t, ents, rank, mode), Run(a[t.len..], ents, rank, mode, h), Run(b, ents, rank, mode, h));
    }
  }

  // ------------------------------------------------------------------------------------ decoding

  /** Line ends of CR or CR LF become LF. */
  function NewLines(s: string): string {
    if s == "" then ""
    else if s[0] == '\r' then "\n" + NewLines(if |s| > 1 && s[1] == '\n' then s[2..] else s[1..])
    else [s[0]] + NewLines(s[1..])
  }

  lemma {:induction false} NewLinesSkip(s: string, i: nat)
    requires i <= |s| && (i < |s| ==> s[i] != '\r')
    ensures i < |s| ==> s[..i] + NewLines(s[i..]) == s[..i + 1] + NewLines(s[i + 1..])
    ensures i == |s| ==> s[..i] + NewLines(s[i..]) == s
  {
    if i < |s| {
      assert s[i..][1..] == s[i + 1..] && s[..i + 1] == s[..i] + [s[i]];
    }
  }

  /** Normalises line ends in place. */
  method NormalizeNewLines(text: string) returns (s: string)
    ensures s == NewLines(text)
  {
    hide NewLines;
    s := text;
    var i := 0;
    assert s[0..] == s && s[..0] == "";
    while i < |s|
      invariant 0 <= i
      invariant i <= |s| ==> s[..i] + NewLines(s[i..]) == NewLines(text)
      invariant |s| < i ==> s == NewLines(text)
      decreases |s| - i
    {
      s, i := NormalizeReturns(s, i);
      NewLinesSkip(s, i);
      i := i + 1;
    }
    if i == |s| {
      NewLinesSkip(s, i);
    }
  }

  /** Rewrites the line ends at `i` until another character comes up. */
  method NormalizeReturns(s: string, i: nat) returns (r: string, k: nat)
    requires i <= |s|
    ensures i <= k <= |r| && (k < |r| ==> r[k] != '\r') && |r| - k <= |s| - i
    ensures r[..k] + NewLines(r[k..]) == s[..i] + NewLines(s[i..])
  {
    r, k := s, i;
    while k < |r| && r[k] == '\r'
      invariant i <= k <= |r| && |r| - k <= |s| - i
      invariant r[..k] + NewLines(r[k..]) == s[..i] + NewLines(s[i..])
      decreases |r| - k
    {
      ghost var before, rest := r[..k], r[k..];
      r := r[..k] + "\n" + r[k + 1..];
      k := k + 1;
      assert r[..k] == before + "\n" && r[k..] == rest[1..];
      if k < |r| && r[k] == '\n' {
        r := r[..k] + r[k + 1..];
        assert r[..k] == before + "\n" && r[k..] == rest[2..];
      }
      assert NewLines(rest) == "\n" + NewLines(r[k..]);
    }
  }

  lemma {:induction false} PlainStep(s: string, ents: seq<Entity>, rank: seq<nat>, mode: Mode, h: nat)
    requires Ranked(ents, rank) && RefsBelow(ents, rank, s, h) && s != ""
    requires NextPiece(s, ents, mode).Plain?
    ensures var t := NextPiece(s, ents, mode);
            && RefsBelow(ents, rank, s[t.len..], h)
            && Run(s, ents, rank, mode, h).text == t.out + Run(s[t.len..], ents, rank, mode, h).text
            && Run(s, ents, rank, mode, h).steps == 1 + Run(s[t.len..], ents, rank, mode, h).steps
  {
    hide NextPiece;
    RunHead(s, ents, rank, mode, h);
  }

  /** Putting the text of an entity in place of a reference changes no outcome. */
  lemma {:induction false} ReferenceStep(s: string, ents: seq<Entity>, rank: seq<nat>, mode: Mode, h: nat)
    requires Ranked(ents, rank) && WellFormed(ents) && h == Bound(rank) && RefsBelow(ents, rank, s, h) && s != ""
    requires NextPiece(s, ents, mode).Reference?
    ensures var t := NextPiece(s, ents, mode);
            var put := ents[t.index].value + s[t.len..];
            && RefsBelow(ents, rank, put, h)
            && Run(s, ents, rank, mode, h).text == Run(put, ents, rank, mode, h).text
            && Run(s, ents, rank, mode, h).steps == 1 + Run(put, ents, rank, mode, h).steps
  {
    hide NextPiece, Run, RefsBelow;
    var t := NextPiece(s, ents, mode);
    var value := ents[t.index].value;
    RunHead(s, ents, rank, mode, h);
    BelowBound(ents, rank, value);
    BelowBound(ents, rank, value + s[t.len..]);
    AnyRanking(value, ents, rank, rank, mode, rank[t.index], h);
    RunConcat(value, s[t.len..], ents, rank, mode, h);
  }

  /** Rewrites references in place, from left to right; the text of an entity is read again. */
  method Decode(text: string, ents: seq<Entity>, mode: Mode, ghost rank: seq<nat>) returns (s: string)
    requires Ranked(ents, rank) && WellFormed(ents)
    ensures s == Expand(NewLines(text), ents, rank, mode)
  {
    hide NextPiece, Run, RefsBelow;
    s := NormalizeNewLines(text);
    ghost var h := Bound(rank);
    var i := 0;
    BelowBound(ents, rank, s);
    assert s[0..] == s && s[..0] == "";
    ghost var goal := Run(s, ents, rank, mode, h).text;
    while i < |s|
      invariant 0 <= i <= |s| && RefsBelow(ents, rank, s[i..], h)
      invariant s[..i] + Run(s[i..], ents, rank, mode, h).text == goal
      decreases Run(s[i..], ents, rank, mode, h).steps
    {
      s, i := DecodeOne(s, i, ents, mode, rank, h);
    }
    assert s[i..] == "" && s[..i] == s;
    RunEmpty(ents, rank, mode, h);
  }

  lemma {:induction false} RunEmpty(ents: seq<Entity>, rank: seq<nat>, mode: Mode, h: nat)
    requires Ranked(ents, rank)
    ensures RefsBelow(ents, rank, "", h) && Run("", ents, rank, mode, h).text == ""
  {
  }

  /** `r` from `k` on is one decoder step ahead of `s` from `i` on. */
  ghost predicate StepsTo(s: string, i: nat, r: string, k: nat, ents: seq<Entity>, rank: seq<nat>, mode: Mode, h: nat)
    requires Ranked(ents, rank) && i <= |s| && RefsBelow(ents, rank, s[i..], h)
  {
    && k <= |r| && RefsBelow(ents, rank, r[k..], h)
    && r[..k] + Run(r[k..], ents, rank, mode, h).text == s[..i] + Run(s[i..], ents, rank, mode, h).text
    && Run(r[k..], ents, rank, mode, h).steps < Run(s[i..], ents, rank, mode, h).steps
  }

  lemma {:induction false} PlainStepsTo(s: string, i: nat, out: string, len: nat, ents: seq<Entity>, rank: seq<nat>,
      mode: Mode, h: nat)
    requires Ranked(ents, rank) && i + len <= |s| && i < |s| && RefsBelow(ents, rank, s[i..], h)
    requires NextPiece(s[i..], ents, mode) == Plain(out, len)
    ensures StepsTo(s, i, s[..i] + out + s[i + len..], i + |out|, ents, rank, mode, h)
  {
    hide NextPiece, Run, RefsBelow;
    PlainStep(s[i..], ents, rank, mode, h);
    var r, k := s[..i] + out + s[i + len..], i + |out|;
    assert r[..k] == s[..i] + out && r[k..] == s[i..][len..];
  }

  lemma {:induction false} ReferenceStepsTo(s: string, i: nat, j: nat, len: nat, ents: seq<Entity>, rank: seq<nat>,
      mode: Mode, h: nat)
    requires Ranked(ents, rank) && WellFormed(ents) && h == Bound(rank) && j < |ents|
    requires i + len <= |s| && i < |s| && RefsBelow(ents, rank, s[i..], h)
    requires NextPiece(s[i..], ents, mode) == Reference(j, len)
    ensures StepsTo(s, i, s[..i] + ents[j].value + s[i + len..], i, ents, rank, mode, h)
  {
    hide NextPiece, Run, RefsBelow;
    ReferenceStep(s[i..], ents, rank, mode, h);
    var r := s[..i] + ents[j].value + s[i + len..];
    assert r[..i] == s[..i] && r[i..] == ents[j].value + s[i..][len..];
  }

  method DecodeOne(s: string, i: nat, ents: seq<Entity>, mode: Mode, ghost rank: seq<nat>, ghost h: nat)
    returns (r: string, k: nat)
    requires Ranked(ents, rank) && WellFormed(ents) && h == Bound(rank)
    requires i < |s| && RefsBelow(ents, rank, s[i..], h)
    ensures StepsTo(s, i, r, k, ents, rank, mode, h)
  {
    hide Run, RefsBelow, StepsTo;
    if mode != CData && "&#" <= s[i..] {
      r, k := DecodeCharRef(s, i, ents, mode, rank, h);
    } else if s[i] == '&' && mode != CData {
      var j := Find(ents, s[i + 1..]);
      if j < |ents| {
        r, k := s[..i] + ents[j].value + s[i + 1 + |ents[j].name|..], i;
        ReferenceStepsTo(s, i, j, 1 + |ents[j].name|, ents, rank, mode, h);
      } else {
        r, k := s, i + 1;
        PlainStepsTo(s, i, "&", 1, ents, rank, mode, h);
        assert s == s[..i] + "&" + s[i + 1..];
      }
    } else if mode == Attribute && IsSpace(s[i]) {
      r, k := s[i := ' '], i + 1;
      PlainStepsTo(s, i, " ", 1, ents, rank, mode, h);
      assert r == s[..i] + " " + s[i + 1..];
    } else {
      r, k := s, i + 1;
      PlainStepsTo(s, i, [s[i]], 1, ents, rank, mode, h);
      assert s == s[..i] + [s[i]] + s[i + 1..];
    }
  }

  method DecodeCharRef(s: string, i: nat, ents: seq<Entity>, mode: Mode, ghost rank: seq<nat>, ghost h: nat)
    returns (r: string, k: nat)
    requires Ranked(ents, rank) && i < |s| && RefsBelow(ents, rank, s[i..], h)
    requires mode != CData && "&#" <= s[i..]
    ensures StepsTo(s, i, r, k, ents, rank, mode, h)
  {
    hide Run, RefsBelow, StepsTo, ReadCharRef;
    var ref := ReadCharRef(s[i..]);
    if ref.NoRef? {
      r, k := s, i + 1;
      PlainStepsTo(s, i, "&", 1, ents, rank, mode, h);
      assert s == s[..i] + "&" + s[i + 1..];
    } else {
      var bytes := [Utf8.Byte(ref.code)];
      if ref.code >= 0x80 {
        bytes := Utf8.Encode(ref.code);
      }
      r := s[..i] + bytes + s[i + ref.semi + 1..];
      k := i + |bytes|;
      PlainStepsTo(s, i, bytes, ref.semi + 1, ents, rank, mode, h);
    }
  }
}

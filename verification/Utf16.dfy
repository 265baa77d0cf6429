/** Conversion of UTF-16 text with a byte order mark to UTF-8, in a buffer that grows as needed. */
module Utf16 {
  import Utf8
  import Words
  import opened Buffers

  datatype Order = BigEndian | LittleEndian

  datatype Conversion = NotUtf16 | Converted(text: string)

  /** Only the first byte of the mark is looked at. */
  function OrderMark(s: string): (r: (bool, Order))
    requires s != ""
  {
    if s[0] == 0xFE as char then (true, BigEndian) else (s[0] == 0xFF as char, LittleEndian)
  }

  function Unit(s: string, i: nat, order: Order): (c: nat)
    requires i + 1 < |s|
    ensures c <= 0xFFFF
  {
    var a, b := s[i] as int % 256, s[i + 1] as int % 256;
    if order == BigEndian then a * 256 + b else b * 256 + a
  }

  predicate IsSurrogate(c: nat) {
    0xD800 <= c <= 0xDFFF
  }

  /** The code point of a pair of surrogates. */
  function Pair(c: nat, d: nat): (r: nat)
    ensures 0x10000 <= r <= 0x10FFFF
  {
    c % 0x400 * 0x400 + d % 0x400 + 0x10000
  }

  /** The UTF-8 text of the units from `i` on.  A surrogate takes the unit behind it as its other half. */
  function Transcode(s: string, i: nat, order: Order): string
    decreases |s| - i
  {
    if i + 1 >= |s| then ""
    else
      var c := Unit(s, i, order);
      if IsSurrogate(c) && i + 3 < |s| then Utf8.Encoding(Pair(c, Unit(s, i + 2, order))) + Transcode(s, i + 4, order)
      else Utf8.Encoding(c) + Transcode(s, i + 2, order)
  }

  method Put(u: array<char>, l: nat, c: char) returns (n: nat)
    requires l < u.Length
    modifies u
    ensures n == l + 1 && u[..n] == old(u[..l]) + [c]
  {
    u[l] := c;
    n := l + 1;
  }

  /** Stores the bytes of `c` at `l`, the lead byte first. */
  method PutEncoding(u: array<char>, l: nat, c: nat) returns (n: nat)
    requires c <= 0x10FFFF && l + 6 <= u.Length
    modifies u
    ensures n <= u.Length && u[..n] == old(u[..l]) + Utf8.Encoding(c)
  {
    hide Utf8.Lead, Utf8.Bits, Utf8.Byte, Utf8.Payload;
    if c < 0x80 {
      n := Put(u, l, Utf8.Byte(c));
    } else {
      Utf8.CountIsStandard(c);
      var b := Utf8.CountBits(c);
      b := (b - 2) / 5;
      n := Put(u, l, Utf8.Lead(c, b));
      n := PutPayload(u, n, c, b);
    }
  }

  method PutPayload(u: array<char>, l: nat, c: nat, count: nat) returns (n: nat)
    requires l + count <= u.Length
    modifies u
    ensures n == l + count && u[..n] == old(u[..l]) + Utf8.Payload(c, count)
  {
    hide Utf8.Byte, Utf8.Shift;
    n := l;
    var b: nat := count;
    while b != 0
      invariant n + b == l + count && b <= count
      invariant u[..n] + Utf8.Payload(c, b) == old(u[..l]) + Utf8.Payload(c, count)
    {
      b := b - 1;
      ghost var before := u[..n];
      n := Put(u, n, Utf8.Byte(0x80 + Utf8.Shift(c, b) % 64));
      assert u[..n] + Utf8.Payload(c, b) == before + Utf8.Payload(c, b + 1);
    }
  }

  method Str2Utf8(s: string) returns (r: Conversion)
    requires s != ""
    ensures r == var (marked, order) := OrderMark(s); if marked then Converted(Transcode(s, 2, order)) else NotUtf16
  {
    hide Unit, Pair, Utf8.Encoding, Utf8.Byte;
    var (marked, order) := OrderMark(s);
    if !marked {
      return NotUtf16;
    }
    var u := new char[|s|];
    var l: nat, i: nat := 0, 2;
    while i < |s| - 1
      invariant fresh(u) && l <= u.Length && 2 <= i
      invariant u[..l] + Transcode(s, i, order) == Transcode(s, 2, order)
      decreases |s| - i
    {
      ghost var done, at := u[..l], i;
      var c := Unit(s, i, order);
      if IsSurrogate(c) {
        i := i + 2;
        if i < |s| - 1 {
          c := Pair(c, Unit(s, i, order));
        }
      }
      assert Transcode(s, at, order) == Utf8.Encoding(c) + Transcode(s, i + 2, order);
      u := Reserve(u, l, 6);
      l := PutEncoding(u, l, c);
      assert u[..l] == done + Utf8.Encoding(c);
      i := i + 2;
    }
    r := Converted(u[..l]);
  }

  // ----------------------------------------------------------------------- well-formed UTF-16

  predicate IsScalar(c: nat) {
    c <= 0x10FFFF && !IsSurrogate(c)
  }

  predicate AllScalar(cs: seq<nat>) {
    cs == [] || (IsScalar(cs[0]) && AllScalar(cs[1..]))
  }

  function UnitBytes(c: nat, order: Order): (s: string)
    requires c <= 0xFFFF
    ensures |s| == 2
  {
    if order == BigEndian then [(c / 256) as char, (c % 256) as char] else [(c % 256) as char, (c / 256) as char]
  }

  /** Section 2.1 of RFC 2781. */
  function Encode16(c: nat, order: Order): string
    requires IsScalar(c)
  {
    if c < 0x10000 then UnitBytes(c, order)
    else
      var v := c - 0x10000;
      UnitBytes(0xD800 + v / 0x400, order) + UnitBytes(0xDC00 + v % 0x400, order)
  }

  function Encode16All(cs: seq<nat>, order: Order): string
    requires AllScalar(cs)
  {
    if cs == [] then "" else Encode16(cs[0], order) + Encode16All(cs[1..], order)
  }

  function Encode8All(cs: seq<nat>): string
    requires AllScalar(cs)
  {
    if cs == [] then "" else Utf8.Rfc3629(cs[0]) + Encode8All(cs[1..])
  }

  lemma {:induction false} UnitOfBytes(c: nat, pre: string, post: string, order: Order)
    requires c <= 0xFFFF
    ensures Unit(pre + UnitBytes(c, order) + post, |pre|, order) == c
  {
  }

  lemma {:induction false} PairOfHalves(c: nat)
    requires 0x10000 <= c <= 0x10FFFF
    ensures var v := c - 0x10000; Pair(0xD800 + v / 0x400, 0xDC00 + v % 0x400) == c
    ensures var v := c - 0x10000; IsSurrogate(0xD800 + v / 0x400) && 0xDC00 + v % 0x400 <= 0xFFFF
  {
  }

  lemma {:induction false} TranscodePair(hi: nat, lo: nat, pre: string, post: string, order: Order)
    requires IsSurrogate(hi) && lo <= 0xFFFF
    ensures var s := pre + (UnitBytes(hi, order) + UnitBytes(lo, order)) + post;
            Transcode(s, |pre|, order) == Utf8.Encoding(Pair(hi, lo)) + Transcode(s, |pre| + 4, order)
  {
    hide Unit, UnitBytes, Pair, Utf8.Encoding;
    var a, b := UnitBytes(hi, order), UnitBytes(lo, order);
    var s := pre + (a + b) + post;
    assert s == pre + a + (b + post);
    UnitOfBytes(hi, pre, b + post, order);
    assert s == (pre + a) + b + post;
    UnitOfBytes(lo, pre + a, post, order);
  }

  /** One code point at the head of a text. */
  lemma {:induction false} TranscodeOne(c: nat, pre: string, post: string, order: Order)
    requires IsScalar(c)
    ensures var s := pre + Encode16(c, order) + post;
            Transcode(s, |pre|, order) == Utf8.Encoding(c) + Transcode(s, |pre + Encode16(c, order)|, order)
  {
    hide Unit, UnitBytes, Pair, Utf8.Encoding;
    if c < 0x10000 {
      UnitOfBytes(c, pre, post, order);
    } else {
      var v := c - 0x10000;
      PairOfHalves(c);
      TranscodePair(0xD800 + v / 0x400, 0xDC00 + v % 0x400, pre, post, order);
    }
  }

  lemma {:induction false} NothingLeft(pre: string, order: Order)
    ensures Transcode(pre + "", |pre|, order) == ""
  {
  }

  lemma {:induction false} TranscodeAll(cs: seq<nat>, pre: string, order: Order)
    requires AllScalar(cs)
    ensures Transcode(pre + Encode16All(cs, order), |pre|, order) == Encode8All(cs)
    decreases |cs|
  {
    hide Transcode, Utf8.Encoding, Encode16, Utf8.Rfc3629;
    if cs == [] {
      NothingLeft(pre, order);
    } else {
      var head, rest := Encode16(cs[0], order), Encode16All(cs[1..], order);
      assert pre + Encode16All(cs, order) == pre + head + rest;
      TranscodeOne(cs[0], pre, rest, order);
      TranscodeAll(cs[1..], pre + head, order);
      Utf8.EncodingIsStandard(cs[0]);
    }
  }

  function Mark(order: Order): string {
    if order == BigEndian then [0xFE as char, 0xFF as char] else [0xFF as char, 0xFE as char]
  }

  /** Well-formed UTF-16 of either byte order becomes the standard UTF-8 of the same code points. */
  lemma {:induction false} WellFormedTranscodes(cs: seq<nat>, order: Order)
    requires AllScalar(cs)
    ensures var s := Mark(order) + Encode16All(cs, order);
            OrderMark(s) == (true, order) && Transcode(s, 2, order) == Encode8All(cs)
  {
    TranscodeAll(cs, Mark(order), order);
  }

  /** The code points that are not halves of a pair. */
  lemma {:induction false} ScalarsByNumbers(c: nat)
    ensures IsScalar(c) <==> c < 0xD800 || 0xE000 <= c <= 0x10FFFF
  {
  }

  /** Text is taken for UTF-16 by its first byte alone, so the mark of UTF-8 is not taken for one. */
  lemma {:induction false} MarksByNumbers(s: string)
    requires s != ""
    ensures OrderMark(s).0 <==> s[0] == 0xFE as char || s[0] == 0xFF as char
    ensures s[0] == 0xFE as char ==> OrderMark(s) == (true, BigEndian)
    ensures s[0] == 0xFF as char ==> OrderMark(s) == (true, LittleEndian)
    ensures s[0] == 0xEF as char ==> !OrderMark(s).0
  {
  }

  /** A letter, a euro sign and a pair of surrogates, the high bytes first. */
  lemma {:induction false} BigByNumbers()
    ensures Transcode(Chars([0xFE, 0xFF, 0, 0x61, 0x20, 0xAC, 0xD8, 0x3D, 0xDE, 0]), 2, BigEndian)
         == Chars([0x61, 0xE2, 0x82, 0xAC, 0xF0, 0x9F, 0x98, 0x80])
  {
    hide Utf8.Encoding, Unit, Transcode;
    BigUnits();
    Transcodes(Chars([0xFE, 0xFF, 0, 0x61, 0x20, 0xAC, 0xD8, 0x3D, 0xDE, 0]), BigEndian);
    SampleEncodings();
  }

  /** The same with the low bytes first. */
  lemma {:induction false} LittleByNumbers()
    ensures Transcode(Chars([0xFF, 0xFE, 0x61, 0, 0xAC, 0x20, 0x3D, 0xD8, 0, 0xDE]), 2, LittleEndian)
         == Chars([0x61, 0xE2, 0x82, 0xAC, 0xF0, 0x9F, 0x98, 0x80])
  {
    hide Utf8.Encoding, Unit, Transcode;
    LittleUnits();
    Transcodes(Chars([0xFF, 0xFE, 0x61, 0, 0xAC, 0x20, 0x3D, 0xD8, 0, 0xDE]), LittleEndian);
    SampleEncodings();
  }

  lemma {:induction false} BigUnits()
    ensures var s := Chars([0xFE, 0xFF, 0, 0x61, 0x20, 0xAC, 0xD8, 0x3D, 0xDE, 0]);
            && Unit(s, 2, BigEndian) == 0x61 && Unit(s, 4, BigEndian) == 0x20AC && Unit(s, 6, BigEndian) == 0xD83D
            && Unit(s, 8, BigEndian) == 0xDE00
  {
  }

  lemma {:induction false} LittleUnits()
    ensures var s := Chars([0xFF, 0xFE, 0x61, 0, 0xAC, 0x20, 0x3D, 0xD8, 0, 0xDE]);
            && Unit(s, 2, LittleEndian) == 0x61 && Unit(s, 4, LittleEndian) == 0x20AC
            && Unit(s, 6, LittleEndian) == 0xD83D && Unit(s, 8, LittleEndian) == 0xDE00
  {
  }

  /** The encodings by numbers. */
  lemma {:induction false} SampleEncodings()
    ensures Utf8.Encoding(0x61) == Chars([0x61]) && Utf8.Encoding(0xE9) == Chars([0xC3, 0xA9])
    ensures Utf8.Encoding(0x20AC) == Chars([0xE2, 0x82, 0xAC])
    ensures Utf8.Encoding(0x1F600) == Chars([0xF0, 0x9F, 0x98, 0x80])
    ensures Utf8.Encoding(0x61) + (Utf8.Encoding(0x20AC) + Utf8.Encoding(0x1F600))
         == Chars([0x61, 0xE2, 0x82, 0xAC, 0xF0, 0x9F, 0x98, 0x80])
  {
    hide Utf8.Encoding;
    Utf8.EncodingIsStandard(0x61);
    Utf8.EncodingIsStandard(0xE9);
    Utf8.EncodingIsStandard(0x20AC);
    Utf8.EncodingIsStandard(0x1F600);
  }

  lemma {:induction false} Transcodes(s: string, order: Order)
    requires |s| == 10 && Unit(s, 2, order) == 0x61 && Unit(s, 4, order) == 0x20AC
    requires Unit(s, 6, order) == 0xD83D && Unit(s, 8, order) == 0xDE00
    ensures Transcode(s, 2, order) == Utf8.Encoding(0x61) + (Utf8.Encoding(0x20AC) + Utf8.Encoding(0x1F600))
  {
    hide Utf8.Encoding, Unit;
    assert Pair(0xD83D, 0xDE00) == 0x1F600;
    assert Transcode(s, 10, order) == "" && Utf8.Encoding(0x1F600) + "" == Utf8.Encoding(0x1F600);
    assert Transcode(s, 6, order) == Utf8.Encoding(0x1F600);
  }

  /** Bytes as characters. */
  function Chars(s: seq<Words.Byte>): (r: string)
    ensures |r| == |s| && forall i | 0 <= i < |s| :: r[i] == s[i] as char
  {
    seq(|s|, i requires 0 <= i < |s| => s[i] as char)
  }
}

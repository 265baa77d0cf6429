/** The multi-byte encoder that entity decoding and UTF-16 conversion share: it finds the number of
    continuation bytes from the bit length alone. */
module Utf8 {

  function Bits(c: nat): nat {
    if c == 0 then 0 else 1 + Bits(c / 2)
  }

  function Pow2(n: nat): (p: nat)
    ensures p > 0
  {
    if n == 0 then 1 else 2 * Pow2(n - 1)
  }

  /** `c` shifted right by `6 * k` bits. */
  function Shift(c: nat, k: nat): nat {
    if k == 0 then c else Shift(c / 64, k - 1)
  }

  function Byte(n: int): char {
    (n % 256) as char
  }

  /** The last `b` continuation bytes of `c`, six bits each. */
  function Payload(c: nat, b: nat): (s: string)
    ensures |s| == b
  {
    if b == 0 then "" else [Byte(0x80 + Shift(c, b - 1) % 64)] + Payload(c, b - 1)
  }

  /** The number of continuation bytes. */
  function Count(c: nat): nat
    requires c >= 0x80
  {
    BitsAtLeast(c, 7);
    (Bits(c) - 2) / 5
  }

  /** The lead byte: `b + 1` one bits, then what is left of `c`.  The shift that makes the one bits
      has no meaning for more than seven continuation bytes, which take a `c` of over 41 bits. */
  function Lead(c: nat, b: nat): char {
    if b < 7 then Byte(256 - Pow2(7 - b) + Shift(c, b)) else Byte(255)
  }

  function Encoding(c: nat): string {
    if c < 0x80 then [Byte(c)] else [Lead(c, Count(c))] + Payload(c, Count(c))
  }

  method Encode(c: nat) returns (s: string)
    ensures s == Encoding(c)
  {
    if c < 0x80 {
      return [Byte(c)];
    }
    BitsAtLeast(c, 7);
    var b := CountBits(c);
    b := (b - 2) / 5;
    var tail := EncodeTail(c, b);
    s := [Lead(c, b)] + tail;
  }

  method CountBits(c: nat) returns (b: nat)
    ensures b == Bits(c)
  {
    var d := c;
    b := 0;
    while d != 0
      invariant b + Bits(d) == Bits(c)
    {
      d := d / 2;
      b := b + 1;
    }
  }

  method EncodeTail(c: nat, n: nat) returns (s: string)
    ensures s == Payload(c, n)
  {
    var b := n;
    s := "";
    while b != 0
      invariant 0 <= b <= n && s + Payload(c, b) == Payload(c, n)
    {
      assert Payload(c, b) == [Byte(0x80 + Shift(c, b - 1) % 64)] + Payload(c, b - 1);
      b := b - 1;
      s := s + [Byte(0x80 + Shift(c, b) % 64)];
    }
  }

  lemma {:induction false} BitsAtLeast(c: nat, n: nat)
    requires c >= Pow2(n)
    ensures Bits(c) > n
  {
    if n > 0 {
      BitsAtLeast(c / 2, n - 1);
    }
  }

  lemma {:induction false} BitsAtMost(c: nat, n: nat)
    requires c < Pow2(n)
    ensures Bits(c) <= n
  {
    if n > 0 {
      BitsAtMost(c / 2, n - 1);
    }
  }

  // ------------------------------------------------------------------------- the standard encoding

  /** Section 3 of RFC 3629. */
  function Rfc3629(c: nat): string
    requires c <= 0x10FFFF
  {
    if c <= 0x7F then [c as char]
    else if c <= 0x7FF then [(0xC0 + c / 64) as char, (0x80 + c % 64) as char]
    else if c <= 0xFFFF then [(0xE0 + c / 4096) as char, (0x80 + c / 64 % 64) as char, (0x80 + c % 64) as char]
    else [(0xF0 + c / 262144) as char, (0x80 + c / 4096 % 64) as char, (0x80 + c / 64 % 64) as char,
        (0x80 + c % 64) as char]
  }

  lemma {:induction false} PowersOf2()
    ensures Pow2(0) == 1 && Pow2(3) == 8 && Pow2(4) == 16 && Pow2(5) == 32 && Pow2(6) == 64 && Pow2(7) == 128
    ensures Pow2(11) == 2048 && Pow2(12) == 4096 && Pow2(16) == 65536 && Pow2(18) == 262144 && Pow2(21) == 2097152
  {
  }

  /** The bit-length rule counts continuation bytes as the standard does. */
  lemma {:induction false} CountIsStandard(c: nat)
    requires 0x80 <= c <= 0x10FFFF
    ensures Count(c) == if c <= 0x7FF then 1 else if c <= 0xFFFF then 2 else 3
  {
    PowersOf2();
    BitsAtLeast(c, 7);
    if c <= 0x7FF {
      BitsAtMost(c, 11);
    } else if c <= 0xFFFF {
      BitsAtLeast(c, 11);
      BitsAtMost(c, 16);
    } else {
      BitsAtLeast(c, 16);
      BitsAtMost(c, 21);
    }
  }

  /** Over the whole range of code points the encoder is the standard encoding. */
  lemma {:induction false} EncodingIsStandard(c: nat)
    requires c <= 0x10FFFF
    ensures Encoding(c) == Rfc3629(c)
  {
    if c >= 0x80 {
      CountIsStandard(c);
      LeadIsStandard(c);
      PayloadIsStandard(c);
      hide Lead, Payload, Count;
      assert Rfc3629(c) == [Rfc3629(c)[0]] + Rfc3629(c)[1..];
    }
  }

  lemma {:induction false} LeadIsStandard(c: nat)
    requires 0x80 <= c <= 0x10FFFF
    ensures Lead(c, Count(c)) == Rfc3629(c)[0]
  {
    CountIsStandard(c);
    hide Count, Lead;
    if c <= 0x7FF {
      LeadOf(c, 1, 64, 64);
    } else if c <= 0xFFFF {
      LeadOf(c, 2, 32, 4096);
    } else {
      LeadOf(c, 3, 16, 262144);
    }
  }

  /** A lead byte of `b` continuation bytes that carry `d` values between them. */
  lemma {:induction false} LeadOf(c: nat, b: nat, ones: nat, d: nat)
    requires (b, ones, d) in {(1, 64, 64), (2, 32, 4096), (3, 16, 262144)} && c / d < ones
    ensures Lead(c, b) == (256 - ones + c / d) as char
  {
    PowersOf2();
    Shifts(c);
    hide Shift, Pow2;
    assert Pow2(7 - b) == ones && Shift(c, b) == c / d;
  }

  lemma {:induction false} PayloadIsStandard(c: nat)
    requires 0x80 <= c <= 0x10FFFF
    ensures Payload(c, Count(c)) == Rfc3629(c)[1..]
  {
    CountIsStandard(c);
    Continuations(c);
    hide Count, Payload;
  }

  lemma {:induction false} SmallByte(n: nat)
    requires n < 256
    ensures Byte(n) == n as char
  {
  }

  lemma {:induction false} Continuations(c: nat)
    ensures Payload(c, 1) == [(0x80 + c % 64) as char]
    ensures Payload(c, 2) == [(0x80 + c / 64 % 64) as char, (0x80 + c % 64) as char]
    ensures Payload(c, 3) == [(0x80 + c / 4096 % 64) as char, (0x80 + c / 64 % 64) as char, (0x80 + c % 64) as char]
  {
    Shifts(c);
    var x, y, z := Byte(0x80 + Shift(c, 0) % 64), Byte(0x80 + Shift(c, 1) % 64), Byte(0x80 + Shift(c, 2) % 64);
    SmallByte(0x80 + c % 64);
    SmallByte(0x80 + c / 64 % 64);
    SmallByte(0x80 + c / 4096 % 64);
    hide Shift, Byte;
    assert Payload(c, 1) == [x];
    assert Payload(c, 2) == [y] + Payload(c, 1) == [y, x];
    assert Payload(c, 3) == [z] + Payload(c, 2) == [z, y, x];
  }

  lemma {:induction false} Shifts(c: nat)
    ensures Shift(c, 0) == c && Shift(c, 1) == c / 64 && Shift(c, 2) == c / 4096 && Shift(c, 3) == c / 262144
  {
    assert Shift(c, 2) == Shift(c / 64, 1) == c / 64 / 64;
    assert Shift(c, 3) == Shift(c / 64, 2) == Shift(c / 64 / 64, 1) == c / 64 / 64 / 64;
  }
}

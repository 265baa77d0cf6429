/** The binary form of a conversion profile: a count, the processor code in hexadecimal UTF-16, padding,
    and one word for each property. */
module D185 {
  import opened Profiles
  import opened Words

  const N_PROPS := 29
  const GRAIN := 8
  const WORDS := 0x201
  const SIZE := 0x275

  // ------------------------------------------------------------------------------ fields by index

  /** Some words have no field: they are written as zero and not looked at. */
  predicate IsUnknown(i: nat) {
    i == 23 || i == 27 || i == 28
  }

  /** The field behind a property; for the grain, the effect. */
  function Get(p: Profile, i: nat): Word {
    if i == 0 then p.shootingCondition
    else if i == 1 then p.fileType
    else if i == 2 then p.imageSize
    else if i == 3 then p.imageQuality
    else if i == 4 then p.exposureBias
    else if i == 5 then p.dynamicRange
    else if i == 6 then p.wideDRange
    else if i == 7 then p.filmSimulation
    else if i == 8 then p.grainEffect
    else if i == 9 then p.chromeEffect
    else if i == 10 then p.wbShootCond
    else if i == 11 then p.whiteBalance
    else if i == 12 then p.wbShiftR
    else if i == 13 then p.wbShiftB
    else if i == 14 then p.wbColorTemp
    else if i == 15 then p.highlightTone
    else if i == 16 then p.shadowTone
    else if i == 17 then p.color
    else if i == 18 then p.sharpness
    else if i == 19 then p.noiseReduction
    else if i == 20 then p.lensModulationOpt
    else if i == 21 then p.colorSpace
    else if i == 22 then p.blackImageTone
    else if i == 24 then p.colorChromeBlue
    else if i == 25 then p.monochromaticColorRG
    else if i == 26 then p.clarity
    else 0
  }

  function Set(p: Profile, i: nat, v: Word): Profile {
    if i == 0 then p.(shootingCondition := v)
    else if i == 1 then p.(fileType := v)
    else if i == 2 then p.(imageSize := v)
    else if i == 3 then p.(imageQuality := v)
    else if i == 4 then p.(exposureBias := v)
    else if i == 5 then p.(dynamicRange := v)
    else if i == 6 then p.(wideDRange := v)
    else if i == 7 then p.(filmSimulation := v)
    else if i == 8 then p.(grainEffect := v)
    else if i == 9 then p.(chromeEffect := v)
    else if i == 10 then p.(wbShootCond := v)
    else if i == 11 then p.(whiteBalance := v)
    else if i == 12 then p.(wbShiftR := v)
    else if i == 13 then p.(wbShiftB := v)
    else if i == 14 then p.(wbColorTemp := v)
    else if i == 15 then p.(highlightTone := v)
    else if i == 16 then p.(shadowTone := v)
    else if i == 17 then p.(color := v)
    else if i == 18 then p.(sharpness := v)
    else if i == 19 then p.(noiseReduction := v)
    else if i == 20 then p.(lensModulationOpt := v)
    else if i == 21 then p.(colorSpace := v)
    else if i == 22 then p.(blackImageTone := v)
    else if i == 24 then p.(colorChromeBlue := v)
    else if i == 25 then p.(monochromaticColorRG := v)
    else if i == 26 then p.(clarity := v)
    else p
  }

  function TableOf(i: nat, iopCode: Word): Table {
    if i == 0 then SHOOTING_CONDITION
    else if i == 1 then FILE_TYPE
    else if i == 2 then IMAGE_SIZE
    else if i == 3 then IMAGE_QUALITY
    else if i == 4 then EXPOSURE_BIAS
    else if i == 5 then D_RANGE
    else if i == 6 then D_RANGE_PRIORITY
    else if i == 7 then FILM_SIM
    else if i == 8 then GRAIN_EFFECT
    else if i == 9 then CHROME_EFFECT
    else if i == 10 then WHITE_BALANCE_SHOOT_COND
    else if i == 11 then WHITE_BALANCE_MODE
    else if i == 12 then Range(9, 9, 10)
    else if i == 13 then Range(9, 9, 10)
    else if i == 14 then ColorTemp()
    else if i == 15 then ToneTable(iopCode)
    else if i == 16 then ToneTable(iopCode)
    else if i == 17 then Range(4, 4, 10)
    else if i == 18 then Range(4, 4, 10)
    else if i == 19 then NOISE_REDUCTION
    else if i == 20 then LENS_MODULATION
    else if i == 21 then COLOR_SPACE
    else if i == 22 then Range(18, 18, 10)
    else if i == 24 then COLOR_CHROME_BLUE
    else if i == 25 then Range(18, 18, 10)
    else if i == 26 then Range(5, 5, 10)
    else []
  }

  /** No property disturbs the field of another. */
  lemma {:induction false} GetSet(p: Profile, i: nat, j: nat, v: Word)
    requires i < N_PROPS && j < N_PROPS && !IsUnknown(i)
    ensures Get(Set(p, i, v), j) == if i == j then v else Get(p, j)
    ensures Set(p, i, v) == Set(p, i, v).(iopCode := p.iopCode, structVer := p.structVer,
              grainEffectSize := p.grainEffectSize, rotationAngle := p.rotationAngle,
              smoothSkinEffect := p.smoothSkinEffect, hdr := p.hdr)
  {
  }

  /** The fields that go into the binary form are all there is behind the properties. */
  lemma {:induction false} SameFields(p: Profile, q: Profile)
    requires forall i: nat | i < N_PROPS :: Get(p, i) == Get(q, i)
    ensures p == q.(iopCode := p.iopCode, structVer := p.structVer, grainEffectSize := p.grainEffectSize,
                    rotationAngle := p.rotationAngle, smoothSkinEffect := p.smoothSkinEffect, hdr := p.hdr)
  {
    assert Get(p, 0) == Get(q, 0) && Get(p, 1) == Get(q, 1) && Get(p, 2) == Get(q, 2) && Get(p, 3) == Get(q, 3);
    assert Get(p, 4) == Get(q, 4) && Get(p, 5) == Get(q, 5) && Get(p, 6) == Get(q, 6) && Get(p, 7) == Get(q, 7);
    assert Get(p, 8) == Get(q, 8) && Get(p, 9) == Get(q, 9) && Get(p, 10) == Get(q, 10) && Get(p, 11) == Get(q, 11);
    assert Get(p, 12) == Get(q, 12) && Get(p, 13) == Get(q, 13) && Get(p, 14) == Get(q, 14) && Get(p, 15) == Get(q, 15);
    assert Get(p, 16) == Get(q, 16) && Get(p, 17) == Get(q, 17) && Get(p, 18) == Get(q, 18) && Get(p, 19) == Get(q, 19);
    assert Get(p, 20) == Get(q, 20) && Get(p, 21) == Get(q, 21) && Get(p, 22) == Get(q, 22) && Get(p, 24) == Get(q, 24);
    assert Get(p, 25) == Get(q, 25) && Get(p, 26) == Get(q, 26);
  }

  // -------------------------------------------------------------------------------- single values

  /** A value is let through if the table has it, or if it is zero. */
  predicate Valid(v: Word, t: Table) {
    v in t || v == 0
  }

  /** What the target holds afterwards: a zero the table does not have is not written. */
  function Copied(v: Word, target: Word, t: Table): Word {
    if v in t then v else target
  }

  method CopyValueIfValid(v: Word, target: Word, t: Table) returns (rc: int, out: Word)
    ensures rc == if Valid(v, t) then 0 else -1
    ensures out == Copied(v, target, t)
  {
    var i := 0;
    while i < |t|
      invariant 0 <= i <= |t| && v !in t[..i]
    {
      if v == t[i] {
        return 0, v;
      }
      i := i + 1;
    }
    return if v == 0 then 0 else -1, target;
  }

  function LowGrain(v: Word): Word {
    if v > GRAIN_STRONG then v - GRAIN_SIZE_LARGE else v
  }

  /** Reads property `i` of a profile from a word. */
  function ParseProp(p: Profile, i: nat, v: Word): Option<Profile> {
    if i >= N_PROPS then None
    else if IsUnknown(i) then Some(p)
    else if i == GRAIN then
      var g := LowGrain(v);
      if !Valid(g, GRAIN_EFFECT) || !Valid(v - g, GRAIN_EFFECT_SIZE) then None
      else Some(p.(grainEffect := Copied(g, p.grainEffect, GRAIN_EFFECT),
                   grainEffectSize := Copied(v - g, p.grainEffectSize, GRAIN_EFFECT_SIZE)))
    else
      var t := TableOf(i, p.iopCode);
      if !Valid(v, t) then None
      else Some(Set(p, i, if i == 10 then v else Copied(v, Get(p, i), t)))
  }

  /** The word for property `i`; `stale` is what the variable for it held before. */
  function GetProp(p: Profile, i: nat, stale: Word): Option<Word> {
    if i >= N_PROPS then None
    else if IsUnknown(i) then Some(0)
    else if i == GRAIN then
      if !Valid(p.grainEffect, GRAIN_EFFECT) || !Valid(p.grainEffectSize, GRAIN_EFFECT_SIZE) then None
      else Some(Wrap(Copied(p.grainEffect, stale, GRAIN_EFFECT) + p.grainEffectSize))
    else
      var t := TableOf(i, p.iopCode);
      if Valid(Get(p, i), t) then Some(Copied(Get(p, i), stale, t)) else None
  }

  // --------------------------------------------------------------------------------- binary numbers

  function Le16(w: nat): (s: seq<Byte>)
    requires w < 0x1_0000
    ensures |s| == 2
  {
    [w % 0x100, w / 0x100]
  }

  function Le32(w: Word): (s: seq<Byte>)
    ensures |s| == 4
  {
    [w % 0x100, w / 0x100 % 0x100, w / 0x1_0000 % 0x100, w / 0x100_0000]
  }

  lemma {:induction false} ReadsLe32(w: Word, pre: seq<Byte>, post: seq<Byte>)
    ensures U32(pre + Le32(w) + post, |pre|) == w
  {
    var b := pre + Le32(w) + post;
    assert b[|pre|..|pre| + 4] == Le32(w);
    assert b[|pre|] == w % 0x100 && b[|pre| + 1] == w / 0x100 % 0x100;
    assert b[|pre| + 2] == w / 0x1_0000 % 0x100 && b[|pre| + 3] == w / 0x100_0000;
    assert w / 0x1_0000 == 0x100 * (w / 0x100_0000) + w / 0x1_0000 % 0x100;
    assert w / 0x100 == 0x100 * (w / 0x1_0000) + w / 0x100 % 0x100;
  }

  // -------------------------------------------------------------------------------- processor code

  function HexDigit(d: nat): Byte
    requires d < 16
  {
    if d < 10 then '0' as int + d else 'A' as int + d - 10
  }

  /** The last `n` hexadecimal digits. */
  function Hex(v: nat, n: nat): (s: seq<Byte>)
    ensures |s| == n
  {
    if n == 0 then [] else Hex(v / 16, n - 1) + [HexDigit(v % 16)]
  }

  /** UTF-16 with the low byte first. */
  function Wide(s: seq<Byte>): (r: seq<Byte>)
    ensures |r| == 2 * |s|
    ensures forall i | 0 <= i < |s| :: r[2 * i] == s[i] && r[2 * i + 1] == 0
  {
    if s == [] then [] else Wide(s[..|s| - 1]) + [s[|s| - 1], 0]
  }

  function DigitOf(c: nat): int {
    if '0' as int <= c <= '9' as int then c - '0' as int
    else if 'A' as int <= c <= 'F' as int then c - 'A' as int + 10
    else -1
  }

  /** The code from character `i` on, behind the digits that give `code`. */
  function ParseCode(b: seq<Byte>, i: nat, code: Word): Option<Word>
    requires |b| >= 0x200 && i <= 9
    decreases |b| - i
  {
    if i >= b[2] then Some(code)
    else
      var c := U16(b, 3 + 2 * i);
      if c == 0 then Some(code)
      else if i > 8 || DigitOf(c) == -1 then None
      else ParseCode(b, i + 1, Wrap(code * 16 + DigitOf(c)))
  }

  // ---------------------------------------------------------------------------------- whole blobs

  function Zeros(n: nat): (s: seq<Byte>)
    ensures |s| == n && forall i | 0 <= i < n :: s[i] == 0
  {
    seq(n, i requires 0 <= i < n => 0)
  }

  function Header(iopCode: Word): (s: seq<Byte>)
    ensures |s| == WORDS
  {
    Le16(N_PROPS) + [9] + Wide(Hex(iopCode, 8)) + [0, 0] + Zeros(WORDS - 21)
  }

  /** The words from property `i` on. */
  function CreateWords(p: Profile, i: nat, stale: seq<Word>): (r: Option<seq<Byte>>)
    requires i <= N_PROPS == |stale|
    ensures r.Some? ==> |r.value| == 4 * (N_PROPS - i)
    decreases |stale| - i
  {
    if i == N_PROPS then Some([])
    else
      match (GetProp(p, i, stale[i]), CreateWords(p, i + 1, stale))
      case (Some(w), Some(rest)) => Some(Le32(w) + rest)
      case _ => None
  }

  function Create(p: Profile, stale: seq<Word>): (r: Option<seq<Byte>>)
    requires |stale| == N_PROPS
    ensures r.Some? ==> |r.value| == SIZE
  {
    match CreateWords(p, 0, stale)
    case Some(words) => Some(Header(p.iopCode) + words)
    case None => None
  }

  /** Words behind the end of a blob that is cut off are zero. */
  function WordAt(b: seq<Byte>, i: nat): Word {
    if WORDS + 4 * i + 4 > |b| then 0 else U32(b, WORDS + 4 * i)
  }

  function ParseProps(b: seq<Byte>, i: nat, n: nat, p: Profile): Option<Profile>
    decreases n - i
  {
    if i >= n then Some(p)
    else
      match ParseProp(p, i, WordAt(b, i))
      case None => None
      case Some(q) => ParseProps(b, i + 1, n, q)
  }

  function Parse(b: seq<Byte>): Option<Profile> {
    if |b| < 0x200 then None
    else
      match ParseCode(b, 0, 0)
      case None => None
      case Some(code) => ParseProps(b, 0, U16(b, 0), Blank(0x1_0000, code))
  }

  // ---------------------------------------------------------------------- what a blob is read as

  predicate Accepts(i: nat, v: Word, iopCode: Word) {
    && i < N_PROPS
    && (IsUnknown(i)
        || (i == GRAIN && Valid(LowGrain(v), GRAIN_EFFECT) && Valid(v - LowGrain(v), GRAIN_EFFECT_SIZE))
        || (i != GRAIN && Valid(v, TableOf(i, iopCode))))
  }

  /** What the first `k` properties of a blob leave in field `j`. */
  function FieldRead(b: seq<Byte>, k: nat, j: nat): Word {
    if j >= k || IsUnknown(j) then 0 else if j == GRAIN then LowGrain(WordAt(b, j)) else WordAt(b, j)
  }

  ghost predicate IsRead(b: seq<Byte>, k: nat, code: Word, p: Profile) {
    && p.iopCode == code && p.structVer == 0x1_0000 && p.rotationAngle == 0 && p.smoothSkinEffect == 0 && p.hdr == 0
    && p.grainEffectSize == (if GRAIN >= k then 0 else WordAt(b, GRAIN) - LowGrain(WordAt(b, GRAIN)))
    && forall j: nat | j < N_PROPS :: Get(p, j) == FieldRead(b, k, j)
  }

  lemma {:induction false} ReadOne(b: seq<Byte>, k: nat, code: Word, p: Profile)
    requires IsRead(b, k, code, p)
    ensures ParseProp(p, k, WordAt(b, k)).Some? <==> Accepts(k, WordAt(b, k), code)
    ensures Accepts(k, WordAt(b, k), code) ==> IsRead(b, k + 1, code, ParseProp(p, k, WordAt(b, k)).value)
  {
    hide Get, Set, TableOf, WordAt;
    var v := WordAt(b, k);
    if Accepts(k, v, code) {
      var q := ParseProp(p, k, v).value;
      if k == GRAIN {
        GrainFields(p, p, GRAIN);
        assert Get(p, GRAIN) == FieldRead(b, k, GRAIN);
        GrainReads(p, v);
        forall j: nat | j < N_PROPS
          ensures Get(q, j) == FieldRead(b, k + 1, j)
        {
          GrainFields(p, q, j);
          assert Get(p, j) == FieldRead(b, k, j);
        }
      } else if !IsUnknown(k) {
        assert Get(p, k) == FieldRead(b, k, k);
        GetSet(p, k, k, v);
        forall j: nat | j < N_PROPS
          ensures Get(q, j) == FieldRead(b, k + 1, j)
        {
          GetSet(p, k, j, v);
          assert Get(p, j) == FieldRead(b, k, j);
        }
      } else {
        assert forall j: nat | j < N_PROPS :: Get(p, j) == FieldRead(b, k, j) == FieldRead(b, k + 1, j);
      }
    }
  }

  lemma {:induction false} GrainFields(p: Profile, q: Profile, j: nat)
    requires q == p.(grainEffect := q.grainEffect, grainEffectSize := q.grainEffectSize)
    ensures Get(q, j) == if j == GRAIN then q.grainEffect else Get(p, j)
  {
  }

  lemma {:induction false} GrainReads(p: Profile, v: Word)
    requires Accepts(GRAIN, v, p.iopCode) && p.grainEffect == 0 && p.grainEffectSize == 0
    ensures ParseProp(p, GRAIN, v) == Some(p.(grainEffect := LowGrain(v), grainEffectSize := v - LowGrain(v)))
  {
  }

  /** Reading succeeds if and only if every word is accepted on its own, and each field is its word. */
  lemma {:induction false} ReadAll(b: seq<Byte>, k: nat, n: nat, code: Word, p: Profile)
    requires IsRead(b, k, code, p) && k <= n
    ensures ParseProps(b, k, n, p).Some? <==> forall j: nat | k <= j < n :: Accepts(j, WordAt(b, j), code)
    ensures ParseProps(b, k, n, p).Some? ==> IsRead(b, n, code, ParseProps(b, k, n, p).value)
    decreases n - k
  {
    hide Get, Set, TableOf, WordAt, IsRead, ParseProp, Accepts;
    if k < n {
      ReadOne(b, k, code, p);
      if Accepts(k, WordAt(b, k), code) {
        ReadAll(b, k + 1, n, code, ParseProp(p, k, WordAt(b, k)).value);
      }
    }
  }

  lemma {:induction false} BlankRead(b: seq<Byte>, code: Word)
    ensures IsRead(b, 0, code, Blank(0x1_0000, code))
  {
  }

  /** A blob is read as at most one profile. */
  lemma {:induction false} ReadUnique(b: seq<Byte>, k: nat, code: Word, p: Profile, q: Profile)
    requires IsRead(b, k, code, p) && IsRead(b, k, code, q)
    ensures p == q
  {
    hide Get, FieldRead, WordAt;
    forall j: nat | j < N_PROPS
      ensures Get(p, j) == Get(q, j)
    {
      assert Get(p, j) == FieldRead(b, k, j);
    }
    SameFields(p, q);
  }

  lemma {:induction false} ParseIs(b: seq<Byte>, code: Word)
    requires |b| >= 0x200 && ParseCode(b, 0, 0) == Some(code)
    ensures Parse(b).Some? <==> forall j: nat | j < U16(b, 0) :: Accepts(j, WordAt(b, j), code)
    ensures forall p :: Parse(b) == Some(p) <==> Parse(b).Some? && IsRead(b, U16(b, 0), code, p)
  {
    hide IsRead, WordAt, Accepts, ParseProps, ParseCode, U16;
    BlankRead(b, code);
    ReadAll(b, 0, U16(b, 0), code, Blank(0x1_0000, code));
    if Parse(b).Some? {
      var q := Parse(b).value;
      forall p | IsRead(b, U16(b, 0), code, p)
        ensures p == q
      {
        ReadUnique(b, U16(b, 0), code, p, q);
      }
    }
  }

  // ----------------------------------------------------------------------------------- cutting off

  /** Blobs with the same head and the same words are read alike. */
  lemma {:induction false} SameWords(b: seq<Byte>, c: seq<Byte>)
    requires |b| >= 0x200 && |c| >= 0x200 && b[..0x200] == c[..0x200]
    requires forall j: nat | j < N_PROPS :: WordAt(b, j) == WordAt(c, j)
    ensures Parse(b) == Parse(c)
  {
    hide WordAt, ParseCode, ParseProps;
    assert forall j | 0 <= j < 0x200 :: b[j] == b[..0x200][j] == c[j];
    SameCode(b, c, 0, 0);
    if ParseCode(b, 0, 0).Some? {
      SameProps(b, c, 0, U16(b, 0), Blank(0x1_0000, ParseCode(b, 0, 0).value));
    }
  }

  lemma {:induction false} SameCode(b: seq<Byte>, c: seq<Byte>, i: nat, code: Word)
    requires |b| >= 0x200 && |c| >= 0x200 && i <= 9
    requires forall j | 0 <= j < 0x200 :: b[j] == c[j]
    ensures ParseCode(b, i, code) == ParseCode(c, i, code)
    decreases |b| - i
  {
    var d := U16(b, 3 + 2 * i);
    if i < b[2] && d != 0 && i <= 8 && DigitOf(d) != -1 {
      SameCode(b, c, i + 1, Wrap(code * 16 + DigitOf(d)));
    }
  }

  lemma {:induction false} SameProps(b: seq<Byte>, c: seq<Byte>, i: nat, n: nat, p: Profile)
    requires forall j: nat | j < N_PROPS :: WordAt(b, j) == WordAt(c, j)
    ensures ParseProps(b, i, n, p) == ParseProps(c, i, n, p)
    decreases n - i
  {
    hide WordAt, Set, Get, TableOf;
    if i < n && i < N_PROPS {
      var q := ParseProp(p, i, WordAt(b, i));
      if q.Some? {
        SameProps(b, c, i + 1, n, q.value);
      }
    }
  }

  /** Cutting a blob off in front of a word reads as if that word and all behind it were zero. */
  lemma {:induction false} CutIsZero(b: seq<Byte>, k: nat, n: nat)
    requires |b| == WORDS + 4 * k
    ensures Parse(b + Zeros(n)) == Parse(b)
  {
    hide Parse;
    var c := b + Zeros(n);
    assert c[..0x200] == b[..0x200];
    forall j: nat | j < N_PROPS
      ensures WordAt(b, j) == WordAt(c, j)
    {
      ZeroWord(b, k, n, j);
    }
    SameWords(b, c);
  }

  lemma {:induction false} ZeroWord(b: seq<Byte>, k: nat, n: nat, j: nat)
    requires |b| == WORDS + 4 * k
    ensures WordAt(b + Zeros(n), j) == WordAt(b, j)
  {
  }

  /** So a blob that is accepted is still accepted when it is cut off. */
  lemma {:induction false} CutStaysAccepted(b: seq<Byte>, k: nat)
    requires |b| >= WORDS + 4 * k && Parse(b).Some?
    ensures Parse(b[..WORDS + 4 * k]).Some?
  {
    hide WordAt, ParseCode, Accepts, IsRead;
    var c := b[..WORDS + 4 * k];
    assert b[..0x200] == c[..0x200];
    assert forall j | 0 <= j < 0x200 :: b[j] == b[..0x200][j] == c[j];
    SameCode(b, c, 0, 0);
    var code := ParseCode(b, 0, 0).value;
    ParseIs(b, code);
    ParseIs(c, code);
    forall j: nat | j < U16(b, 0)
      ensures Accepts(j, WordAt(c, j), code)
    {
      assert Accepts(j, WordAt(b, j), code);
      CutWord(b, k, j);
      ZeroAccepted(j, WordAt(b, j), code);
    }
  }

  lemma {:induction false} CutWord(b: seq<Byte>, k: nat, j: nat)
    requires |b| >= WORDS + 4 * k
    ensures WordAt(b[..WORDS + 4 * k], j) == if j < k then WordAt(b, j) else 0
  {
  }

  lemma {:induction false} ZeroAccepted(j: nat, v: Word, code: Word)
    requires Accepts(j, v, code)
    ensures Accepts(j, 0, code)
  {
  }

  // ---------------------------------------------------------------------------------- round trips

  /** What is written of a profile. */
  function Stored(p: Profile): Profile {
    p.(structVer := 0x1_0000, rotationAngle := 0, smoothSkinEffect := 0, hdr := 0)
  }

  /** A grain that the sum in the binary form tells apart from the others. */
  predicate GrainKept(p: Profile) {
    p.grainEffectSize == GRAIN_SIZE_LARGE ==> p.grainEffect != GRAIN_OFF && p.grainEffect != 0
  }

  /** A field whose table lacks its zero takes what the variable held before; that must be zero, too. */
  predicate ZeroKept(p: Profile, i: nat, stale: Word) {
    IsUnknown(i) || stale == 0 || Get(p, i) in (if i == GRAIN then GRAIN_EFFECT else TableOf(i, p.iopCode))
  }

  predicate Kept(p: Profile, stale: seq<Word>)
    requires |stale| == N_PROPS
  {
    GrainKept(p) && forall i: nat | i < N_PROPS :: ZeroKept(p, i, stale[i])
  }

  lemma {:induction false} WordsAt(p: Profile, k: nat, i: nat, stale: seq<Word>, pre: seq<Byte>)
    requires k <= i < N_PROPS == |stale| && CreateWords(p, k, stale).Some? && |pre| == WORDS + 4 * k
    ensures GetProp(p, i, stale[i]).Some?
    ensures WordAt(pre + CreateWords(p, k, stale).value, i) == GetProp(p, i, stale[i]).value
    decreases i - k
  {
    hide GetProp, Le32, U32;
    var w, rest := GetProp(p, k, stale[k]).value, CreateWords(p, k + 1, stale).value;
    var b := pre + CreateWords(p, k, stale).value;
    assert b == pre + Le32(w) + rest;
    if i == k {
      ReadsLe32(w, pre, rest);
    } else {
      WordsAt(p, k + 1, i, stale, pre + Le32(w));
    }
  }

  /** Creating fails if and only if a field is not let through. */
  lemma {:induction false} CreateIs(p: Profile, k: nat, stale: seq<Word>)
    requires k <= N_PROPS == |stale|
    ensures CreateWords(p, k, stale).Some? <==> forall i: nat | k <= i < N_PROPS :: GetProp(p, i, stale[i]).Some?
    decreases |stale| - k
  {
    hide GetProp;
    if k < N_PROPS {
      CreateIs(p, k + 1, stale);
    }
  }

  function Shift(v: nat, n: nat): nat {
    if n == 0 then v else Shift(v / 16, n - 1)
  }

  lemma {:induction false} HexAt(v: nat, n: nat, i: nat)
    requires i < n
    ensures Hex(v, n)[i] == HexDigit(Shift(v, n - 1 - i) % 16)
  {
    if i < n - 1 {
      HexAt(v / 16, n - 1, i);
    }
  }

  lemma {:induction false} ShiftStep(v: nat, n: nat)
    ensures Shift(v, n) == 16 * Shift(v, n + 1) + Shift(v, n) % 16
    ensures Shift(v, n + 1) == Shift(v, n) / 16
  {
    if n > 0 {
      ShiftStep(v / 16, n - 1);
    }
  }

  lemma {:induction false} ShiftSmall(v: Word, n: nat)
    ensures Shift(v, n) <= v < 0x1_0000_0000
  {
    if n > 0 {
      ShiftSmall(v / 16, n - 1);
    }
  }

  /** Every 32-bit code comes back from its eight digits. */
  lemma {:induction false} CodeReads(code: Word, i: nat, words: seq<Byte>)
    requires i <= 8
    ensures var b := Header(code) + words;
            Shift(code, 8 - i) <= code && ParseCode(b, i, Shift(code, 8 - i)) == Some(code)
    decreases 8 - i
  {
    hide Header, Hex, Shift, HexDigit, DigitOf, ParseCode, U16;
    var b := Header(code) + words;
    HeaderAt(code, words, i);
    ShiftSmall(code, 8 - i);
    if i == 8 {
      ShiftNone(code);
      CodeEnds(b, code);
    } else {
      HexAt(code, 8, i);
      ShiftStep(code, 7 - i);
      ShiftSmall(code, 7 - i);
      CodeStep(b, i, Shift(code, 8 - i), Shift(code, 7 - i) % 16);
      CodeReads(code, i + 1, words);
    }
  }

  lemma {:induction false} CodeEnds(b: seq<Byte>, code: Word)
    requires |b| >= 0x200 && U16(b, 3 + 2 * 8) == 0
    ensures ParseCode(b, 8, code) == Some(code)
  {
  }

  lemma {:induction false} CodeStep(b: seq<Byte>, i: nat, code: Word, d: nat)
    requires |b| >= 0x200 && i < 8 && b[2] == 9 && d < 16 && U16(b, 3 + 2 * i) == HexDigit(d)
    ensures ParseCode(b, i, code) == ParseCode(b, i + 1, Wrap(code * 16 + d))
  {
    hide HexDigit, DigitOf;
    DigitReads(d);
  }

  lemma {:induction false} ShiftNone(code: nat)
    ensures Shift(code, 0) == code
  {
  }

  lemma {:induction false} DigitReads(d: nat)
    requires d < 16
    ensures DigitOf(HexDigit(d)) == d && HexDigit(d) != 0
  {
  }

  lemma {:induction false} HeaderAt(code: Word, words: seq<Byte>, i: nat)
    requires i <= 8
    ensures var b := Header(code) + words;
            b[2] == 9 && U16(b, 3 + 2 * i) == if i == 8 then 0 else Hex(code, 8)[i] as int
    ensures U16(Header(code) + words, 0) == N_PROPS
  {
    hide Hex, Zeros;
    var h := Header(code);
    var w := Wide(Hex(code, 8));
    assert h[..3] == Le16(N_PROPS) + [9] && h[3..19] == w && h[19..21] == [0, 0];
    assert h[0] == h[..3][0] && h[1] == h[..3][1] && h[2] == h[..3][2];
    if i < 8 {
      assert h[3 + 2 * i] == h[3..19][2 * i] && h[4 + 2 * i] == h[3..19][2 * i + 1];
    } else {
      assert h[19] == h[19..21][0] && h[20] == h[19..21][1];
    }
  }

  lemma {:induction false} CreatedHead(p: Profile, stale: seq<Word>)
    requires |stale| == N_PROPS && Create(p, stale).Some?
    ensures var c := Create(p, stale).value;
            && ParseCode(c, 0, 0) == Some(p.iopCode) && U16(c, 0) == N_PROPS
            && forall i: nat | i < N_PROPS :: GetProp(p, i, stale[i]) == Some(WordAt(c, i))
  {
    hide GetProp, WordAt, ParseCode, U16, Header;
    var words := CreateWords(p, 0, stale).value;
    HeaderAt(p.iopCode, words, 0);
    CodeReads(p.iopCode, 0, words);
    assert Shift(p.iopCode, 8) == 0 by { AllShifted(p.iopCode); }
    forall i: nat | i < N_PROPS
      ensures GetProp(p, i, stale[i]) == Some(WordAt(Header(p.iopCode) + words, i))
    {
      WordsAt(p, 0, i, stale, Header(p.iopCode));
    }
  }

  lemma {:induction false} AllShifted(v: Word)
    ensures Shift(v, 8) == 0
  {
    assert Shift(v, 8) == Shift(v / 16, 7) == Shift(v / 16 / 16, 6) == Shift(v / 16 / 16 / 16, 5);
    var w := v / 16 / 16 / 16;
    assert Shift(w, 5) == Shift(w / 16, 4) == Shift(w / 16 / 16, 3);
    var x := w / 16 / 16;
    assert Shift(x, 3) == Shift(x / 16, 2) == Shift(x / 16 / 16, 1) == Shift(x / 16 / 16 / 16, 0);
  }

  /** One word reads back as the field it was made from if and only if the field is kept. */
  lemma {:induction false} WordReads(p: Profile, i: nat, stale: Word)
    requires i < N_PROPS && i != GRAIN && !IsUnknown(i) && GetProp(p, i, stale).Some?
    ensures var v := GetProp(p, i, stale).value; Accepts(i, v, p.iopCode) && v == Get(p, i) <==> ZeroKept(p, i, stale)
  {
    hide Get, TableOf;
  }

  lemma {:induction false} GrainWordReads(p: Profile, stale: Word)
    requires GetProp(p, GRAIN, stale).Some?
    ensures var v := GetProp(p, GRAIN, stale).value;
            && Accepts(GRAIN, v, p.iopCode) && LowGrain(v) == p.grainEffect && v - LowGrain(v) == p.grainEffectSize
            <==> GrainKept(p) && ZeroKept(p, GRAIN, stale)
  {
    hide TableOf;
  }

  lemma {:induction false} FieldKept(p: Profile, stale: seq<Word>, j: nat)
    requires j < N_PROPS == |stale| && Create(p, stale).Some?
    ensures var v := WordAt(Create(p, stale).value, j);
            if IsUnknown(j) then Accepts(j, v, p.iopCode) && Get(p, j) == 0 && ZeroKept(p, j, stale[j])
            else if j == GRAIN then
              && Get(p, j) == p.grainEffect
              && (Accepts(j, v, p.iopCode) && LowGrain(v) == p.grainEffect && v - LowGrain(v) == p.grainEffectSize
                  <==> GrainKept(p) && ZeroKept(p, j, stale[j]))
            else Accepts(j, v, p.iopCode) && v == Get(p, j) <==> ZeroKept(p, j, stale[j])
  {
    hide GetProp, WordAt, Create, Accepts, LowGrain, TableOf, Get, ZeroKept, GrainKept;
    CreatedHead(p, stale);
    assert GetProp(p, j, stale[j]) == Some(WordAt(Create(p, stale).value, j));
    if IsUnknown(j) {
      UnknownAccepted(p, j, WordAt(Create(p, stale).value, j), stale[j]);
    } else if j == GRAIN {
      GrainFields(p, p, GRAIN);
      GrainWordReads(p, stale[GRAIN]);
    } else {
      WordReads(p, j, stale[j]);
    }
  }

  lemma {:induction false} KeptParses(p: Profile, stale: seq<Word>)
    requires |stale| == N_PROPS && Create(p, stale).Some? && Kept(p, stale)
    ensures Parse(Create(p, stale).value) == Some(Stored(p))
  {
    hide GetProp, WordAt, ParseCode, U16, Create, Parse, Accepts, LowGrain, TableOf, Get, ZeroKept, GrainKept;
    var c, q := Create(p, stale).value, Stored(p);
    CreatedHead(p, stale);
    ParseIs(c, p.iopCode);
    forall j: nat | j < N_PROPS
      ensures Accepts(j, WordAt(c, j), p.iopCode) && Get(q, j) == FieldRead(c, N_PROPS, j)
    {
      FieldKept(p, stale, j);
      StoredFields(p, j);
      assert ZeroKept(p, j, stale[j]);
    }
    FieldKept(p, stale, GRAIN);
    assert ZeroKept(p, GRAIN, stale[GRAIN]);
    assert IsRead(c, N_PROPS, p.iopCode, q);
  }

  lemma {:induction false} ParsesKept(p: Profile, stale: seq<Word>)
    requires |stale| == N_PROPS && Create(p, stale).Some? && Parse(Create(p, stale).value) == Some(Stored(p))
    ensures Kept(p, stale)
  {
    hide GetProp, WordAt, ParseCode, U16, Create, Parse, Accepts, LowGrain, TableOf, Get, ZeroKept, GrainKept;
    var c, q := Create(p, stale).value, Stored(p);
    CreatedHead(p, stale);
    ParseIs(c, p.iopCode);
    assert IsRead(c, N_PROPS, p.iopCode, q);
    forall j: nat | j < N_PROPS
      ensures ZeroKept(p, j, stale[j]) && (j == GRAIN ==> GrainKept(p))
    {
      FieldKept(p, stale, j);
      StoredFields(p, j);
      assert Get(q, j) == FieldRead(c, N_PROPS, j) && Accepts(j, WordAt(c, j), p.iopCode);
    }
    assert ZeroKept(p, GRAIN, stale[GRAIN]);
  }

  /** Writing and reading back gives the stored fields and the code if and only if the grain is not one
      of the two ambiguous ones and no stale value takes the place of a zero. */
  lemma {:induction false} CreatedParses(p: Profile, stale: seq<Word>)
    requires |stale| == N_PROPS && Create(p, stale).Some?
    ensures Parse(Create(p, stale).value) == Some(Stored(p)) <==> Kept(p, stale)
  {
    hide Create, Parse, Kept, Stored;
    if Kept(p, stale) {
      KeptParses(p, stale);
    } else if Parse(Create(p, stale).value) == Some(Stored(p)) {
      ParsesKept(p, stale);
    }
  }

  lemma {:induction false} StoredFields(p: Profile, j: nat)
    ensures Get(Stored(p), j) == Get(p, j)
  {
  }

  lemma {:induction false} UnknownAccepted(p: Profile, j: nat, v: Word, stale: Word)
    requires IsUnknown(j)
    ensures Accepts(j, v, p.iopCode) && Get(p, j) == 0 && ZeroKept(p, j, stale)
  {
  }

  /** The variable for the words starts out zero each time. */
  predicate IsFresh(stale: seq<Word>) {
    |stale| == N_PROPS && forall i | 0 <= i < |stale| :: stale[i] == 0
  }

  lemma {:induction false} FreshKept(p: Profile, stale: seq<Word>)
    requires IsFresh(stale) && GrainKept(p)
    ensures Kept(p, stale)
  {
    hide Get, TableOf, GrainKept;
  }

  /** What was read can be written, and has no ambiguous grain. */
  lemma {:induction false} ReadCreates(b: seq<Byte>, p: Profile, stale: seq<Word>)
    requires IsFresh(stale) && Parse(b) == Some(p)
    ensures Create(p, stale).Some? && GrainKept(p) && Stored(p) == p
    ensures forall j: nat | j < N_PROPS :: Get(p, j) == FieldRead(b, U16(b, 0), j)
  {
    hide WordAt, ParseCode, Accepts, TableOf, Get, GetProp, GrainKept, U16;
    var code := ParseCode(b, 0, 0).value;
    ParseIs(b, code);
    var n := U16(b, 0);
    forall i: nat | i < N_PROPS
      ensures GetProp(p, i, stale[i]).Some?
    {
      assert Get(p, i) == FieldRead(b, n, i);
      if i < n {
        assert Accepts(i, WordAt(b, i), code);
      }
      if i == GRAIN {
        GrainFields(p, p, GRAIN);
        GrainCreates(p, if i < n then WordAt(b, i) else 0);
      } else {
        FieldCreates(p, i, if i < n then WordAt(b, i) else 0);
      }
    }
    assert Get(p, GRAIN) == FieldRead(b, n, GRAIN);
    GrainFields(p, p, GRAIN);
    if GRAIN < n {
      assert Accepts(GRAIN, WordAt(b, GRAIN), code);
    }
    GrainCreates(p, if GRAIN < n then WordAt(b, GRAIN) else 0);
    CreateIs(p, 0, stale);
  }

  lemma {:induction false} FieldCreates(p: Profile, i: nat, v: Word)
    requires i < N_PROPS && i != GRAIN && (v == 0 || Accepts(i, v, p.iopCode))
    requires Get(p, i) == if IsUnknown(i) then 0 else v
    ensures GetProp(p, i, 0).Some?
  {
    hide Get, TableOf;
  }

  lemma {:induction false} GrainCreates(p: Profile, v: Word)
    requires v == 0 || Accepts(GRAIN, v, p.iopCode)
    requires p.grainEffect == LowGrain(v) && p.grainEffectSize == v - LowGrain(v)
    ensures GetProp(p, GRAIN, 0).Some? && GrainKept(p)
  {
  }

  /** Every accepted blob has a canonical form of the full size that is read as the same profile. */
  lemma {:induction false} Canonical(b: seq<Byte>, p: Profile, stale: seq<Word>)
    requires IsFresh(stale) && Parse(b) == Some(p)
    ensures Create(p, stale).Some? && |Create(p, stale).value| == SIZE
    ensures Parse(Create(p, stale).value) == Some(p)
  {
    hide Parse, Create, Kept, GrainKept, Stored;
    ReadCreates(b, p, stale);
    FreshKept(p, stale);
    KeptParses(p, stale);
  }

  /** The canonical form in a buffer of zeros may even be read at the length of the blob it came from. */
  lemma {:induction false} CanonicalCut(b: seq<Byte>, p: Profile, stale: seq<Word>)
    requires IsFresh(stale) && Parse(b) == Some(p)
    ensures Create(p, stale).Some?
    ensures var c := Create(p, stale).value;
            Parse(if |b| <= SIZE then c[..|b|] else c + Zeros(|b| - SIZE)) == Some(p)
  {
    hide Create, WordAt, ParseCode, ParseProps, GetProp, Get, Kept, GrainKept, Parse;
    Canonical(b, p, stale);
    if |b| <= SIZE {
      CanonicalShort(b, p, stale);
    } else {
      CutIsZero(Create(p, stale).value, N_PROPS, |b| - SIZE);
    }
  }

  lemma {:induction false} CanonicalShort(b: seq<Byte>, p: Profile, stale: seq<Word>)
    requires IsFresh(stale) && Parse(b) == Some(p) && |b| <= SIZE
    ensures Create(p, stale).Some? && Parse(Create(p, stale).value[..|b|]) == Some(p)
  {
    hide Create, WordAt, ParseCode, ParseProps, GetProp, Get, Kept, GrainKept;
    Canonical(b, p, stale);
    ReadCreates(b, p, stale);
    var c := Create(p, stale).value;
    var d := c[..|b|];
    assert d[..0x200] == c[..0x200];
    CreatedHead(p, stale);
    forall j: nat | j < N_PROPS
      ensures WordAt(d, j) == WordAt(c, j)
    {
      assert Get(p, j) == FieldRead(b, U16(b, 0), j);
      assert GetProp(p, j, 0) == Some(WordAt(c, j)) by { assert stale[j] == 0; }
      CutOffWord(b, c, j);
      if WORDS + 4 * j + 4 > |b| {
        ZeroWordCreated(p, j, b);
      }
    }
    SameWords(d, c);
  }

  lemma {:induction false} CutOffWord(b: seq<Byte>, c: seq<Byte>, j: nat)
    requires |b| <= |c|
    ensures WordAt(c[..|b|], j) == if WORDS + 4 * j + 4 > |b| then 0 else WordAt(c, j)
    ensures WORDS + 4 * j + 4 > |b| ==> WordAt(b, j) == 0
  {
  }

  lemma {:induction false} ZeroWordCreated(p: Profile, j: nat, b: seq<Byte>)
    requires j < N_PROPS && Parse(b) == Some(p) && WordAt(b, j) == 0 && GetProp(p, j, 0).Some?
    ensures GetProp(p, j, 0) == Some(0)
  {
    hide WordAt, ParseCode, Get, TableOf;
    var code := ParseCode(b, 0, 0).value;
    ParseIs(b, code);
    assert Get(p, j) == FieldRead(b, U16(b, 0), j);
    GrainFields(p, p, GRAIN);
  }

  // ----------------------------------------------------------------------------- grain and merging

  /** The sum of effect and size tells apart all pairs but one that collides with strong and small. */
  lemma {:induction false} GrainInjective(p: Profile, q: Profile)
    requires p.grainEffect in GRAIN_EFFECT && p.grainEffectSize in GRAIN_EFFECT_SIZE
    requires q.grainEffect in GRAIN_EFFECT && q.grainEffectSize in GRAIN_EFFECT_SIZE
    requires (p.grainEffect, p.grainEffectSize) != (q.grainEffect, q.grainEffectSize)
    ensures GetProp(p, GRAIN, 0) == GetProp(q, GRAIN, 0) <==>
            {(p.grainEffect, p.grainEffectSize), (q.grainEffect, q.grainEffectSize)}
            == {(GRAIN_OFF, GRAIN_SIZE_LARGE), (GRAIN_STRONG, GRAIN_SIZE_SMALL)}
  {
  }

  /** A sanitised profile keeps its grain unless an effect that is not set goes with a large size. */
  lemma {:induction false} SanitisedGrain(p: Profile, q: Profile, stale: seq<Word>)
    requires IsFresh(stale) && Sanitised(p) == Some(q) && Create(q, stale).Some?
    ensures Parse(Create(q, stale).value) == Some(Stored(q)) <==>
            !(p.grainEffect == 0 && p.grainEffectSize == GRAIN_SIZE_LARGE)
  {
    hide Parse, Create, Stored, Kept;
    CreatedParses(q, stale);
    if GrainKept(q) {
      FreshKept(q, stale);
    } else {
      assert !Kept(q, stale) by { NotKept(q, stale); }
    }
  }

  lemma {:induction false} NotKept(p: Profile, stale: seq<Word>)
    requires |stale| == N_PROPS && !GrainKept(p)
    ensures !Kept(p, stale)
  {
    hide GrainKept;
  }

  /** What a sanitised profile's dynamic range can be written of: not the two larger HDR modes. */
  predicate HdrWritable(p: Profile) {
    p.hdr == 200 || p.hdr == 400 || (p.hdr != 800 && p.hdr != 801 && Valid(p.dynamicRange, D_RANGE))
  }

  /** The properties that sanitising sets to a value that can be written, whatever they were. */
  predicate IsReset(p: Profile, i: nat) {
    || (p.wbShootCond == 1 && 11 <= i <= 14)
    || ((p.fileType == 9 || p.fileType == 11) && 2 <= i <= 3)
    || (i == 17 && (p.filmSimulation in MONOCHROME || p.filmSimulation == SEPIA))
    || ((i == 22 || i == 25) && p.filmSimulation !in MONOCHROME)
    || (i == GRAIN && p.grainEffect == GRAIN_OFF)
  }

  lemma {:induction false} SanitisedProp(p: Profile, q: Profile, i: nat, stale: Word)
    requires i < N_PROPS && Sanitised(p) == Some(q)
    ensures GetProp(q, i, stale).Some? <==>
            if i == 5 then HdrWritable(p) else IsReset(p, i) || GetProp(p, i, stale).Some?
  {
    hide ToneTable, ColorTemp;
    ZeroInRange();
    hide Range;
  }

  lemma {:induction false} ZeroInRange()
    ensures forall n: nat, m: nat, step: nat {:trigger Range(n, m, step)} | 0 < step <= 10 && n <= 18 && m <= 18 ::
              Valid(0, Range(n, m, step))
  {
  }

  /** The dynamic range of a sanitised profile can be written if and only if the HDR mode is not one of the
      two larger, and the range was good where no mode replaces it. */
  lemma {:induction false} SanitisedHdr(p: Profile, q: Profile, stale: seq<Word>)
    requires |stale| == N_PROPS && Sanitised(p) == Some(q)
    ensures GetProp(q, 5, stale[5]).Some? <==> HdrWritable(p)
    ensures p.hdr == 800 || p.hdr == 801 ==> Create(q, stale).None?
  {
    hide Header, CreateWords, GetProp;
    CreateIs(q, 0, stale);
    SanitisedProp(p, q, 5, stale[5]);
  }

  /** A sanitised profile can be written if and only if its HDR mode is and so is every other property,
      but for those that sanitising resets. */
  lemma {:induction false} SanitisedWritable(p: Profile, q: Profile, stale: seq<Word>)
    requires |stale| == N_PROPS && Sanitised(p) == Some(q)
    ensures Create(q, stale).Some? <==>
            HdrWritable(p) && forall i: nat | i < N_PROPS && i != 5 :: IsReset(p, i) || GetProp(p, i, stale[i]).Some?
  {
    hide Header, CreateWords, GetProp, HdrWritable, IsReset;
    CreateIs(q, 0, stale);
    forall i: nat | i < N_PROPS
      ensures GetProp(q, i, stale[i]).Some? <==>
              if i == 5 then HdrWritable(p) else IsReset(p, i) || GetProp(p, i, stale[i]).Some?
    {
      SanitisedProp(p, q, i, stale[i]);
    }
    assert GetProp(q, 5, stale[5]).Some? <==> HdrWritable(p);
  }

  lemma {:induction false} BlankCreates(p: Profile, stale: seq<Word>)
    requires |stale| == N_PROPS && (p.grainEffectSize == 0 || p.grainEffectSize == GRAIN_SIZE_LARGE)
    requires forall i: nat | i < N_PROPS :: Get(p, i) == 0
    ensures Create(p, stale).Some?
  {
    hide Header, CreateWords, Get, TableOf;
    CreateIs(p, 0, stale);
    GrainFields(p, p, GRAIN);
    assert forall i: nat | i < N_PROPS :: GetProp(p, i, stale[i]).Some?;
  }

  /** A profile with nothing but the HDR mode 800: it can be written, and once sanitised it cannot. */
  lemma {:induction false} HdrIsLost(stale: seq<Word>)
    requires |stale| == N_PROPS
    ensures var p := Blank(0x1_0000, 0).(hdr := 800);
            Create(p, stale).Some? && Sanitised(p).Some? && Create(Sanitised(p).value, stale).None?
  {
    hide Create, GetProp, TableOf;
    var p := Blank(0x1_0000, 0).(hdr := 800);
    BlankCreates(p, stale);
    SanitisedHdr(p, Sanitised(p).value, stale);
  }

  lemma {:induction false} SanitisedAlready(p: Profile)
    requires p.hdr == 0 && p.wbShootCond == 0 && p.fileType == 0 && p.grainEffect == 0 && p.filmSimulation == 0
    requires p.monochromaticColorRG == 0 && p.blackImageTone == 0
    ensures Sanitised(p) == Some(p)
  {
  }

  lemma {:induction false} LargeGrainOnly(p: Profile)
    requires p == Blank(0x1_0000, 0).(grainEffectSize := GRAIN_SIZE_LARGE)
    ensures Sanitised(p) == Some(p) && forall i: nat | i < N_PROPS :: Get(p, i) == 0
    ensures p.grainEffect == 0 && p.grainEffectSize == GRAIN_SIZE_LARGE
  {
    hide Sanitised;
    SanitisedAlready(p);
  }

  /** A profile with nothing but the large grain size passes sanitising as it is and is read back wrong. */
  lemma {:induction false} GrainIsLost(stale: seq<Word>)
    requires IsFresh(stale)
    ensures var p := Blank(0x1_0000, 0).(grainEffectSize := GRAIN_SIZE_LARGE);
            && Sanitised(p) == Some(p) && Create(p, stale).Some?
            && Parse(Create(p, stale).value) != Some(Stored(p))
  {
    var p := Blank(0x1_0000, 0).(grainEffectSize := GRAIN_SIZE_LARGE);
    LargeGrainOnly(p);
    hide *;
    BlankCreates(p, stale);
    SanitisedGrain(p, p, stale);
  }

  /** Merging a user's profile into the camera's survives the binary form: the camera keeps its code,
      clarity, lens modulation and colour space, and everything else stored is the user's. */
  lemma {:induction false} MergedParses(user: Profile, camera: Profile, stale: seq<Word>)
    requires IsFresh(stale) && Create(user.(iopCode := camera.iopCode), stale).Some? && Create(camera, stale).Some?
              && GrainKept(user)
    ensures var m := Create(Merged(user, camera), stale);
            m.Some? && Parse(m.value).Some? &&
            var q := Parse(m.value).value;
            && q.iopCode == camera.iopCode && q.grainEffectSize == user.grainEffectSize
            && forall j: nat | j < N_PROPS :: Get(q, j) == Get(if j in [20, 21, 26] then camera else user, j)
  {
    hide Create, Parse, Get, GetProp, Kept;
    var u, m := user.(iopCode := camera.iopCode), Merged(user, camera);
    Created(u, stale);
    Created(camera, stale);
    forall i: nat | i < N_PROPS
      ensures GetProp(m, i, stale[i]).Some?
      ensures Get(m, i) == Get(if i in [20, 21, 26] then camera else user, i)
    {
      assert GetProp(u, i, stale[i]).Some? && GetProp(camera, i, stale[i]).Some?;
      MergedProp(user, camera, i);
      assert stale[i] == 0;
    }
    CreateIs(m, 0, stale);
    assert Create(m, stale).Some? by { Creates(m, stale); }
    FreshKept(m, stale);
    KeptParses(m, stale);
    forall j: nat | j < N_PROPS
      ensures Get(Stored(m), j) == Get(m, j)
    {
      StoredFields(m, j);
    }
  }

  lemma {:induction false} Created(p: Profile, stale: seq<Word>)
    requires |stale| == N_PROPS && Create(p, stale).Some?
    ensures forall i: nat | i < N_PROPS :: GetProp(p, i, stale[i]).Some?
  {
    hide GetProp, Header;
    CreateIs(p, 0, stale);
  }

  lemma {:induction false} Creates(p: Profile, stale: seq<Word>)
    requires |stale| == N_PROPS && CreateWords(p, 0, stale).Some?
    ensures Create(p, stale).Some?
  {
    hide CreateWords, Header;
  }

  lemma {:induction false} MergedProp(user: Profile, camera: Profile, i: nat)
    requires i < N_PROPS
    ensures var m := Merged(user, camera);
            && GetProp(m, i, 0) == GetProp(if i in [20, 21, 26] then camera else user.(iopCode := camera.iopCode), i, 0)
            && Get(m, i) == Get(if i in [20, 21, 26] then camera else user, i)
  {
    hide ToneTable, Range, ColorTemp;
  }

  // -------------------------------------------------------------------------- the code on buffers

  method WriteU8(bin: array<Byte>, of: nat, v: Byte) returns (n: nat)
    requires of < bin.Length
    modifies bin
    ensures n == of + 1 && bin[..n] == old(bin[..of]) + [v] && forall k | n <= k < bin.Length :: bin[k] == old(bin[k])
  {
    bin[of] := v;
    n := of + 1;
  }

  method WriteU16(bin: array<Byte>, of: nat, v: nat) returns (n: nat)
    requires of + 2 <= bin.Length && v < 0x1_0000
    modifies bin
    ensures n == of + 2 && bin[..n] == old(bin[..of]) + Le16(v)
    ensures forall k | n <= k < bin.Length :: bin[k] == old(bin[k])
  {
    bin[of] := v % 0x100;
    bin[of + 1] := v / 0x100;
    n := of + 2;
  }

  method WriteU32(bin: array<Byte>, of: nat, v: Word) returns (n: nat)
    requires of + 4 <= bin.Length
    modifies bin
    ensures n == of + 4 && bin[..n] == old(bin[..of]) + Le32(v)
    ensures forall k | n <= k < bin.Length :: bin[k] == old(bin[k])
  {
    bin[of] := v % 0x100;
    bin[of + 1] := v / 0x100 % 0x100;
    bin[of + 2] := v / 0x1_0000 % 0x100;
    bin[of + 3] := v / 0x100_0000;
    n := of + 4;
  }

  /** Writes text two bytes to a character. */
  method WriteWide(text: seq<Byte>, bin: array<Byte>, start: nat) returns (of: nat)
    requires start + 2 * |text| <= bin.Length
    modifies bin
    ensures of == start + 2 * |text| && bin[..of] == old(bin[..start]) + Wide(text)
    ensures forall k | of <= k < bin.Length :: bin[k] == old(bin[k])
  {
    of := start;
    for i := 0 to |text|
      invariant of == start + 2 * i && bin[..of] == old(bin[..start]) + Wide(text[..i])
      invariant forall k | of <= k < bin.Length :: bin[k] == old(bin[k])
    {
      of := WriteU16(bin, of, text[i]);
      assert text[..i + 1] == text[..i] + [text[i]];
      WideStep(text[..i], text[i]);
    }
    assert text[..|text|] == text;
  }

  method WriteHeader(iopCode: Word, bin: array<Byte>) returns (of: nat)
    requires bin.Length >= WORDS
    modifies bin
    ensures of == WORDS && bin[..of] == Header(iopCode) && forall k | of <= k < bin.Length :: bin[k] == old(bin[k])
  {
    hide Hex, Le16, Zeros, Wide;
    of := WriteU16(bin, 0, N_PROPS);
    var hex := Hex(iopCode, 8);
    of := WriteU8(bin, of, |hex| + 1);
    of := WriteWide(hex, bin, of);
    of := WriteU16(bin, of, 0);
    of := WritePadding(bin, of);
    ZeroPair();
  }

  lemma {:induction false} ZeroPair()
    ensures Le16(0) == [0, 0]
  {
  }

  lemma {:induction false} WideStep(s: seq<Byte>, c: Byte)
    ensures Wide(s + [c]) == Wide(s) + Le16(c)
  {
    assert (s + [c])[..|s|] == s;
  }

  method WritePadding(bin: array<Byte>, start: nat) returns (of: nat)
    requires start <= WORDS <= bin.Length
    modifies bin
    ensures of == WORDS && bin[..of] == old(bin[..start]) + Zeros(WORDS - start)
    ensures forall k | of <= k < bin.Length :: bin[k] == old(bin[k])
  {
    of := start;
    while of < WORDS
      invariant start <= of <= WORDS && bin[..of] == old(bin[..start]) + Zeros(of - start)
      invariant forall k | of <= k < bin.Length :: bin[k] == old(bin[k])
    {
      of := WriteU8(bin, of, 0);
    }
  }

  method PropToWord(fp: FujiProfile, i: nat, stale: Word) returns (rc: int, value: Word)
    ensures GetProp(fp.p, i, stale) == if rc == 0 then Some(value) else None
    ensures rc == 0 || rc == -1
  {
    hide Get, TableOf;
    if i >= N_PROPS {
      return -1, stale;
    } else if IsUnknown(i) {
      return 0, 0;
    } else if i == GRAIN {
      var rcSize, size;
      rc, value := CopyValueIfValid(fp.p.grainEffect, stale, GRAIN_EFFECT);
      rcSize, size := CopyValueIfValid(fp.p.grainEffectSize, 0, GRAIN_EFFECT_SIZE);
      value := Wrap(value + size);
      rc := if rc == 0 then rcSize else -1;
    } else {
      rc, value := CopyValueIfValid(Get(fp.p, i), stale, TableOf(i, fp.p.iopCode));
    }
  }

  method WordToProp(fp: FujiProfile, i: nat, value: Word) returns (rc: int)
    modifies fp
    ensures match ParseProp(old(fp.p), i, value) case Some(p) => rc == 0 && fp.p == p case None => rc == -1
  {
    hide Get, Set, TableOf;
    if i >= N_PROPS {
      return -1;
    } else if IsUnknown(i) {
      return 0;
    } else if i == GRAIN {
      var low, out := value, 0;
      if low > GRAIN_STRONG {
        low := low - GRAIN_SIZE_LARGE;
      }
      rc, out := CopyValueIfValid(low, fp.p.grainEffect, GRAIN_EFFECT);
      fp.p := fp.p.(grainEffect := out);
      if rc != 0 {
        return -1;
      }
      rc, out := CopyValueIfValid(value - low, fp.p.grainEffectSize, GRAIN_EFFECT_SIZE);
      fp.p := fp.p.(grainEffectSize := out);
    } else {
      var target := Get(fp.p, i);
      if i == 10 {
        target := value;
      }
      var out;
      rc, out := CopyValueIfValid(value, target, TableOf(i, fp.p.iopCode));
      fp.p := Set(fp.p, i, out);
    }
  }

  /** Writes the binary form.  The length is checked against one byte too few. */
  method CreateD185(fp: FujiProfile, bin: array<Byte>, len: nat, stale: seq<Word>) returns (rc: int)
    requires len < 0x274 || bin.Length >= SIZE
    requires |stale| == N_PROPS
    modifies bin
    ensures fp.p == old(fp.p)
    ensures len < 0x274 ==> rc == -1 && bin[..] == old(bin[..])
    ensures len >= 0x274 ==>
            match Create(fp.p, stale)
            case Some(c) => rc == SIZE && bin[..SIZE] == c && bin[SIZE..] == old(bin[SIZE..])
            case None => rc == -1
  {
    hide Header, GetProp, Le32;
    if !(len >= 0x274) {
      return -1;
    }
    var of := WriteHeader(fp.p.iopCode, bin);
    var i: nat := 0;
    while i < N_PROPS
      invariant i <= N_PROPS && of == WORDS + 4 * i
      invariant forall k | of <= k < bin.Length :: bin[k] == old(bin[k])
      invariant CreateWords(fp.p, i, stale).Some? <==> Create(fp.p, stale).Some?
      invariant Create(fp.p, stale).Some? ==> bin[..of] + CreateWords(fp.p, i, stale).value == Create(fp.p, stale).value
    {
      var rcProp, value := PropToWord(fp, i, stale[i]);
      if rcProp != 0 {
        return rcProp;
      }
      ghost var before := bin[..of];
      of := WriteU32(bin, of, value);
      assert Create(fp.p, stale).Some? ==>
          before + CreateWords(fp.p, i, stale).value == bin[..of] + CreateWords(fp.p, i + 1, stale).value;
      i := i + 1;
    }
    rc := of;
  }

  /** Reads the digits of the processor code. */
  method ReadCode(bin: array<Byte>, len: nat) returns (rc: int, code: Word)
    requires 0x200 <= len <= bin.Length
    ensures rc == 0 || rc == -1
    ensures ParseCode(bin[..len], 0, 0) == if rc == 0 then Some(code) else None
  {
    hide U16, DigitOf, ParseCode;
    ghost var b := bin[..len];
    var strLen := bin[2];
    var i: nat := 0;
    code := 0;
    while i < strLen
      invariant i <= 9 && ParseCode(b, 0, 0) == ParseCode(b, i, code)
    {
      CodeIs(b, i, code);
      var c := U16(bin[..len], 3 + 2 * i);
      if c == 0 {
        return 0, code;
      }
      if i > 8 || DigitOf(c) == -1 {
        return -1, code;
      }
      code := Wrap(code * 16 + DigitOf(c));
      i := i + 1;
    }
    CodeIs(b, i, code);
    return 0, code;
  }

  lemma {:induction false} CodeIs(b: seq<Byte>, i: nat, code: Word)
    requires |b| >= 0x200 && i <= 9
    ensures ParseCode(b, i, code) ==
            var c := U16(b, 3 + 2 * i);
            if i >= b[2] || c == 0 then Some(code)
            else if i > 8 || DigitOf(c) == -1 then None
            else ParseCode(b, i + 1, Wrap(code * 16 + DigitOf(c)))
  {
    hide U16, DigitOf;
  }

  /** Reads the binary form into a profile. */
  method ParseD185(bin: array<Byte>, len: nat, fp: FujiProfile) returns (rc: int)
    requires len <= bin.Length
    modifies fp
    ensures match Parse(bin[..len]) case Some(p) => rc == 0 && fp.p == p case None => rc == -1
  {
    hide ParseProp, U16, ParseCode;
    if len < 0x200 {
      return -1;
    }
    fp.p := Blank(0x1_0000, 0);
    var nProps := U16(bin[..len], 0);
    var code;
    rc, code := ReadCode(bin, len);
    if rc != 0 {
      return -1;
    }
    fp.p := fp.p.(iopCode := code);
    rc := ReadProps(bin, len, nProps, fp);
  }

  method ReadProps(bin: array<Byte>, len: nat, nProps: nat, fp: FujiProfile) returns (rc: int)
    requires len <= bin.Length
    modifies fp
    ensures match ParseProps(bin[..len], 0, nProps, old(fp.p))
            case Some(p) => rc == 0 && fp.p == p
            case None => rc == -1
  {
    hide ParseProp, U32;
    ghost var b := bin[..len];
    var i: nat := 0;
    while i < nProps
      invariant ParseProps(b, 0, nProps, old(fp.p)) == ParseProps(b, i, nProps, fp.p)
    {
      var value: Word := 0;
      if WORDS + 4 * i + 4 <= len {
        value := U32(bin[..len], WORDS + 4 * i);
      }
      var rcProp := WordToProp(fp, i, value);
      if rcProp != 0 {
        return -1;
      }
      i := i + 1;
    }
    return 0;
  }
}

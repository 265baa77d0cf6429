/** The binary form of a profile in numbers: which words are accepted, and where each field stands. */
module Layout {
  import opened D185
  import opened Profiles
  import opened Words

  // -------------------------------------------------------------------------------- accepted words

  /** Multiples of `step` up to `high`, and below zero down to `-low`. */
  predicate InSteps(v: Word, step: nat, low: nat, high: nat)
    requires step > 0
  {
    (v <= high && v % step == 0) || (0x1_0000_0000 - v <= low && (0x1_0000_0000 - v) % step == 0)
  }

  /** The words that property `i` may hold. */
  predicate Allowed(i: nat, v: Word, code: Word) {
    if i in [0, 10, 20, 24] then v <= 2
    else if i in [6, 9, 21] then v <= 3
    else if i == 1 then v in [0, 7, 9, 11]
    else if i == 2 then v <= 9
    else if i == 3 then v in [0, 2, 3]
    else if i == 4 then
      v in [0, 333, 667, 1000, 1333, 1667, 2000, 2333, 2667, 3000] ||
      0x1_0000_0000 - v in [333, 667, 1000, 1333, 1667, 2000, 2333, 2667, 3000]
    else if i == 5 then v in [0, 100, 200, 400]
    else if i == 7 then v <= 17
    else if i == 8 then v <= 5
    else if i == 11 then v in [0, 1, 2, 4, 6, 8] || 0x8001 <= v <= 0x8003 || 0x8006 <= v <= 0x800A
    else if i in [12, 13] then InSteps(v, 10, 90, 90)
    else if i == 14 then v in [0, 1000, 2200] || (2500 <= v <= 9990 && v % 10 == 0)
    else if i in [15, 16] then
      if code / 0x100 % 0x1_0000 == 0x1795 then InSteps(v, 5, 40, 40) else InSteps(v, 10, 20, 40)
    else if i in [17, 18] then InSteps(v, 10, 40, 40)
    else if i == 19 then v <= 0x8000 && v % 0x1000 == 0
    else if i in [22, 25] then InSteps(v, 10, 180, 180)
    else if i == 26 then InSteps(v, 10, 50, 50)
    else i in [23, 27, 28]
  }

  /** Where a value stands in equal steps, if it does. */
  lemma {:induction false} StepsHave(first: nat, step: nat, n: nat, v: Word)
    requires (step == 5 || step == 10) && first + step * n <= 0x1_0000_0000
    ensures v in Steps(first, step, n) <==> first <= v < first + step * n && (v - first) % step == 0
  {
    var t := Steps(first, step, n);
    if v in t {
      var k :| 0 <= k < |t| && t[k] == v;
      StepAtIs(first, step, n, k);
    }
    if first <= v < first + step * n && (v - first) % step == 0 {
      var k := (v - first) / step;
      assert k < n && v == first + step * k;
      assert t[k] == v;
    }
  }

  lemma {:induction false} StepAtIs(first: nat, step: nat, n: nat, k: nat)
    requires (step == 5 || step == 10) && first + step * n <= 0x1_0000_0000 && k < n
    ensures var v := StepAt(first, step, n, k); first <= v < first + step * n && (v - first) % step == 0
  {
    if step == 5 {
      assert StepAt(first, 5, n, k) == first + 5 * k;
    } else {
      assert StepAt(first, 10, n, k) == first + 10 * k;
    }
  }

  /** A range of multiples, those below zero as 32-bit words. */
  lemma {:induction false} RangeHas(n: nat, m: nat, step: nat, v: Word)
    requires (step == 5 || step == 10) && n <= 18 && m <= 18
    ensures v in Range(n, m, step) <==> InSteps(v, step, step * m, step * n)
  {
    hide Steps;
    var low := 0x1_0000_0000 - step * m;
    StepsHave(step, step, n, v);
    StepsHave(low, step, m, v);
    assert v in Range(n, m, step) <==> v in Steps(step, step, n) || v == 0 || v in Steps(low, step, m);
    if step == 5 {
      Parity5(v, m);
    } else {
      Parity10(v, m);
    }
  }

  lemma {:induction false} Parity5(v: Word, m: nat)
    requires m <= 18
    ensures var low, d := 0x1_0000_0000 - 5 * m, 0x1_0000_0000 - v;
            low <= v && (v - low) % 5 == 0 <==> d <= 5 * m && d % 5 == 0
    ensures v % 5 == 0 <==> v == 0 || (5 <= v && (v - 5) % 5 == 0)
  {
  }

  lemma {:induction false} Parity10(v: Word, m: nat)
    requires m <= 18
    ensures var low, d := 0x1_0000_0000 - 10 * m, 0x1_0000_0000 - v;
            low <= v && (v - low) % 10 == 0 <==> d <= 10 * m && d % 10 == 0
    ensures v % 10 == 0 <==> v == 0 || (10 <= v && (v - 10) % 10 == 0)
  {
  }

  lemma {:induction false} TemperaturesHave(v: Word)
    ensures v in ColorTemp() <==> v in [0, 1000, 2200] || (2500 <= v <= 9990 && v % 10 == 0)
  {
    hide Steps;
    StepsHave(2500, 10, 750, v);
    assert v in ColorTemp() <==> v in [0, 2200] || v in Steps(2500, 10, 750) || v == 1000;
  }

  lemma {:induction false} TonesHave(code: Word, v: Word)
    ensures v in ToneTable(code) <==>
            if code / 0x100 % 0x1_0000 == 0x1795 then InSteps(v, 5, 40, 40) else InSteps(v, 10, 20, 40)
  {
    hide Range;
    RangeHas(8, 8, 5, v);
    RangeHas(4, 2, 10, v);
  }

  lemma {:induction false} ListsHave(i: nat, v: Word, code: Word)
    requires i in [0, 1, 2, 3, 4, 5, 6, 7, 9, 10, 11, 19, 20, 21, 24]
    ensures Valid(v, TableOf(i, code)) <==> Allowed(i, v, code)
  {
    hide TableOf, Allowed;
    if i <= 3 {
      ListsTo3(i, v, code);
    } else if i <= 6 {
      ListsTo6(i, v, code);
    } else if i <= 10 {
      ListsTo10(i, v, code);
    } else {
      ListsTo24(i, v, code);
    }
  }

  lemma {:induction false} ListsTo3(i: nat, v: Word, code: Word)
    requires i <= 3
    ensures Valid(v, TableOf(i, code)) <==> Allowed(i, v, code)
  {
  }

  lemma {:induction false} ListsTo6(i: nat, v: Word, code: Word)
    requires 4 <= i <= 6
    ensures Valid(v, TableOf(i, code)) <==> Allowed(i, v, code)
  {
  }

  lemma {:induction false} ListsTo10(i: nat, v: Word, code: Word)
    requires i in [7, 9, 10]
    ensures Valid(v, TableOf(i, code)) <==> Allowed(i, v, code)
  {
  }

  lemma {:induction false} ListsTo24(i: nat, v: Word, code: Word)
    requires i in [11, 19, 20, 21, 24]
    ensures Valid(v, TableOf(i, code)) <==> Allowed(i, v, code)
  {
    hide Range, ToneTable, ColorTemp, InSteps;
  }

  lemma {:induction false} TableIs(i: nat, code: Word)
    ensures i in [12, 13] ==> TableOf(i, code) == Range(9, 9, 10)
    ensures i == 14 ==> TableOf(i, code) == ColorTemp()
    ensures i in [15, 16] ==> TableOf(i, code) == ToneTable(code)
    ensures i in [17, 18] ==> TableOf(i, code) == Range(4, 4, 10)
    ensures i in [22, 25] ==> TableOf(i, code) == Range(18, 18, 10)
    ensures i == 26 ==> TableOf(i, code) == Range(5, 5, 10)
  {
    hide Range, ColorTemp, ToneTable;
  }

  lemma {:induction false} RangesHave(i: nat, v: Word, code: Word)
    requires i in [12, 13, 14, 15, 16, 17, 18, 22, 25, 26]
    ensures v in TableOf(i, code) <==> Allowed(i, v, code)
  {
    hide Range, ToneTable, ColorTemp, TableOf, InSteps;
    TableIs(i, code);
    if i in [12, 13] {
      RangeHas(9, 9, 10, v);
    } else if i == 14 {
      TemperaturesHave(v);
    } else if i in [15, 16] {
      TonesHave(code, v);
    } else if i in [17, 18] {
      RangeHas(4, 4, 10, v);
    } else if i in [22, 25] {
      RangeHas(18, 18, 10, v);
    } else {
      RangeHas(5, 5, 10, v);
    }
  }

  /** Zero is allowed everywhere, and is in some of the lists. */
  lemma {:induction false} ZeroListed(i: nat, code: Word)
    requires i < 29 && i !in [8, 23, 27, 28]
    ensures 0 in TableOf(i, code) <==> i !in [0, 1, 2, 3, 5, 7, 9, 10, 20, 21]
  {
    hide TableOf, Allowed;
    if i in [12, 13, 14, 15, 16, 17, 18, 22, 25, 26] {
      RangesHave(i, 0, code);
      ZeroAllowed(i, code);
    } else {
      ZeroInList(i, code);
    }
  }

  lemma {:induction false} ZeroInList(i: nat, code: Word)
    requires i in [0, 1, 2, 3, 4, 5, 6, 7, 9, 10, 11, 19, 20, 21, 24]
    ensures 0 in TableOf(i, code) <==> i in [4, 6, 11, 19, 24]
  {
    hide Range, ToneTable, ColorTemp;
  }

  lemma {:induction false} AcceptsAllowed(i: nat, v: Word, code: Word)
    requires i < 29
    ensures Accepts(i, v, code) <==> Allowed(i, v, code)
  {
    hide TableOf, Allowed;
    if i in [12, 13, 14, 15, 16, 17, 18, 22, 25, 26] {
      RangesHave(i, v, code);
      RangesHave(i, 0, code);
      ZeroAllowed(i, code);
    } else if i in [0, 1, 2, 3, 4, 5, 6, 7, 9, 10, 11, 19, 20, 21, 24] {
      ListsHave(i, v, code);
    } else {
      OthersHave(i, v, code);
    }
  }

  lemma {:induction false} ZeroAllowed(i: nat, code: Word)
    requires i < 29
    ensures Allowed(i, 0, code)
  {
  }

  lemma {:induction false} OthersHave(i: nat, v: Word, code: Word)
    requires i in [8, 23, 27, 28]
    ensures Accepts(i, v, code) <==> Allowed(i, v, code)
  {
  }

  // ----------------------------------------------------------------------------------------- reading

  /** A word of the form, from offset 0x201 on; zero behind the end, and where fewer than `i` are announced. */
  function Word32(b: seq<Byte>, i: nat): Word {
    var of := 0x201 + 4 * i;
    if |b| < of + 4 || i >= Announced(b) then 0
    else b[of] as int + 0x100 * b[of + 1] as int + 0x1_0000 * b[of + 2] as int + 0x100_0000 * b[of + 3] as int
  }

  function Announced(b: seq<Byte>): nat {
    if |b| < 2 then 0 else b[0] as int + 0x100 * b[1] as int
  }

  /** Each field is the word at its place; the grain is two fields in one. */
  predicate Stands(b: seq<Byte>, p: Profile) {
    && p.structVer == 0x1_0000
    && p.shootingCondition == Word32(b, 0) && p.fileType == Word32(b, 1) && p.imageSize == Word32(b, 2)
    && p.imageQuality == Word32(b, 3) && p.exposureBias == Word32(b, 4) && p.dynamicRange == Word32(b, 5)
    && p.wideDRange == Word32(b, 6) && p.filmSimulation == Word32(b, 7)
    && p.grainEffect == (if Word32(b, 8) > 3 then Word32(b, 8) - 2 else Word32(b, 8))
    && p.grainEffectSize == (if Word32(b, 8) > 3 then 2 else 0)
    && p.chromeEffect == Word32(b, 9) && p.wbShootCond == Word32(b, 10) && p.whiteBalance == Word32(b, 11)
    && p.wbShiftR == Word32(b, 12) && p.wbShiftB == Word32(b, 13) && p.wbColorTemp == Word32(b, 14)
    && p.highlightTone == Word32(b, 15) && p.shadowTone == Word32(b, 16) && p.color == Word32(b, 17)
    && p.sharpness == Word32(b, 18) && p.noiseReduction == Word32(b, 19) && p.lensModulationOpt == Word32(b, 20)
    && p.colorSpace == Word32(b, 21) && p.blackImageTone == Word32(b, 22) && p.colorChromeBlue == Word32(b, 24)
    && p.monochromaticColorRG == Word32(b, 25) && p.clarity == Word32(b, 26)
    && p.rotationAngle == 0 && p.smoothSkinEffect == 0 && p.hdr == 0
  }

  /** A form is read exactly if its code is, no more than 29 words are announced and each of them is
      allowed; every field is then the word at its place. */
  lemma {:induction false} ReadsFields(b: seq<Byte>)
    ensures Parse(b).Some? <==>
            && |b| >= 0x200 && ParseCode(b, 0, 0).Some? && Announced(b) <= 29
            && forall i: nat | i < Announced(b) :: Allowed(i, Word32(b, i), ParseCode(b, 0, 0).value)
    ensures Parse(b).Some? ==> Parse(b).value.iopCode == ParseCode(b, 0, 0).value && Stands(b, Parse(b).value)
  {
    hide ParseCode, Accepts, Allowed, Get, WordAt, Word32, Stands, ParseProps;
    if |b| >= 0x200 && ParseCode(b, 0, 0).Some? {
      var code := ParseCode(b, 0, 0).value;
      ParseIs(b, code);
      assert U16(b, 0) == Announced(b);
      AcceptsAll(b, code);
      if Parse(b).Some? {
        var p := Parse(b).value;
        assert IsRead(b, Announced(b), code, p);
        FieldsAre(b, code, p);
      }
    }
  }

  lemma {:induction false} AcceptsAll(b: seq<Byte>, code: Word)
    requires |b| >= 0x200
    ensures (forall i: nat | i < Announced(b) :: Accepts(i, WordAt(b, i), code)) <==>
            Announced(b) <= 29 && forall i: nat | i < Announced(b) :: Allowed(i, Word32(b, i), code)
  {
    hide Accepts, Allowed, WordAt, Word32, Announced;
    forall i: nat | i < Announced(b)
      ensures WordAt(b, i) == Word32(b, i)
      ensures i < 29 ==> Accepts(i, WordAt(b, i), code) == Allowed(i, Word32(b, i), code)
      ensures i >= 29 ==> !Accepts(i, WordAt(b, i), code)
    {
      WordIs(b, i);
      if i < 29 {
        AcceptsAllowed(i, WordAt(b, i), code);
      } else {
        NoneBehind(i, WordAt(b, i), code);
      }
    }
    if Announced(b) > 29 {
      assert !Accepts(29, WordAt(b, 29), code);
    }
  }

  lemma {:induction false} NoneBehind(i: nat, v: Word, code: Word)
    requires i >= 29
    ensures !Accepts(i, v, code)
  {
  }

  lemma {:induction false} WordIs(b: seq<Byte>, i: nat)
    requires i < Announced(b)
    ensures WordAt(b, i) == Word32(b, i)
  {
    hide Announced;
  }

  lemma {:induction false} FieldIs(b: seq<Byte>, code: Word, p: Profile, i: nat)
    requires IsRead(b, Announced(b), code, p) && i < 29 && i !in [8, 23, 27, 28]
    ensures Get(p, i) == Word32(b, i)
  {
    hide Get, WordAt, Announced;
    assert Get(p, i) == FieldRead(b, Announced(b), i);
    if i < Announced(b) {
      WordIs(b, i);
    } else {
      NotAnnounced(b, i);
    }
  }

  lemma {:induction false} FieldsAre(b: seq<Byte>, code: Word, p: Profile)
    requires IsRead(b, Announced(b), code, p)
    ensures Stands(b, p)
  {
    hide Get, WordAt, Word32, Announced, FieldRead;
    FieldIs(b, code, p, 0); FieldIs(b, code, p, 1); FieldIs(b, code, p, 2); FieldIs(b, code, p, 3);
    FieldIs(b, code, p, 4); FieldIs(b, code, p, 5); FieldIs(b, code, p, 6); FieldIs(b, code, p, 7);
    FieldIs(b, code, p, 9); FieldIs(b, code, p, 10); FieldIs(b, code, p, 11); FieldIs(b, code, p, 12);
    FieldIs(b, code, p, 13); FieldIs(b, code, p, 14); FieldIs(b, code, p, 15); FieldIs(b, code, p, 16);
    FieldIs(b, code, p, 17); FieldIs(b, code, p, 18); FieldIs(b, code, p, 19); FieldIs(b, code, p, 20);
    FieldIs(b, code, p, 21); FieldIs(b, code, p, 22); FieldIs(b, code, p, 24); FieldIs(b, code, p, 25);
    FieldIs(b, code, p, 26);
    FieldsTo7(p);
    FieldsTo14(p);
    FieldsTo20(p);
    FieldsTo26(p);
    GrainIs(b, code, p);
  }

  /** The fields by number. */
  lemma {:induction false} FieldsTo7(p: Profile)
    ensures p.shootingCondition == Get(p, 0) && p.fileType == Get(p, 1) && p.imageSize == Get(p, 2)
    ensures p.imageQuality == Get(p, 3) && p.exposureBias == Get(p, 4) && p.dynamicRange == Get(p, 5)
    ensures p.wideDRange == Get(p, 6) && p.filmSimulation == Get(p, 7)
  {
  }

  lemma {:induction false} FieldsTo14(p: Profile)
    ensures p.chromeEffect == Get(p, 9) && p.wbShootCond == Get(p, 10) && p.whiteBalance == Get(p, 11)
    ensures p.wbShiftR == Get(p, 12) && p.wbShiftB == Get(p, 13) && p.wbColorTemp == Get(p, 14)
  {
  }

  lemma {:induction false} FieldsTo20(p: Profile)
    ensures p.highlightTone == Get(p, 15) && p.shadowTone == Get(p, 16) && p.color == Get(p, 17)
    ensures p.sharpness == Get(p, 18) && p.noiseReduction == Get(p, 19) && p.lensModulationOpt == Get(p, 20)
  {
  }

  lemma {:induction false} FieldsTo26(p: Profile)
    ensures p.colorSpace == Get(p, 21) && p.blackImageTone == Get(p, 22) && p.colorChromeBlue == Get(p, 24)
    ensures p.monochromaticColorRG == Get(p, 25) && p.clarity == Get(p, 26)
  {
  }

  lemma {:induction false} GrainIs(b: seq<Byte>, code: Word, p: Profile)
    requires IsRead(b, Announced(b), code, p)
    ensures p.grainEffect == if Word32(b, 8) > 3 then Word32(b, 8) - 2 else Word32(b, 8)
    ensures p.grainEffectSize == if Word32(b, 8) > 3 then 2 else 0
  {
    hide WordAt, Word32, Announced;
    assert Get(p, 8) == FieldRead(b, Announced(b), 8);
    if 8 < Announced(b) {
      WordIs(b, 8);
    } else {
      NotAnnounced(b, 8);
    }
  }

  lemma {:induction false} NotAnnounced(b: seq<Byte>, i: nat)
    requires i >= Announced(b)
    ensures Word32(b, i) == 0
  {
  }

  // ------------------------------------------------------------------------------------------- tones

  /** Highlight and shadow go by halves from -4 to 4 on the newer processors, and by whole steps from -2 to 4 on
      all others. */
  lemma {:induction false} Tones(i: nat, v: Word, code: Word)
    requires i == 15 || i == 16
    ensures code / 0x100 % 0x1_0000 == 0x1795 ==>
              (Accepts(i, v, code) <==>
               v in [0, 5, 10, 15, 20, 25, 30, 35, 40] || 0x1_0000_0000 - v in [5, 10, 15, 20, 25, 30, 35, 40])
    ensures code / 0x100 % 0x1_0000 != 0x1795 ==>
              (Accepts(i, v, code) <==> v in [0, 10, 20, 30, 40] || 0x1_0000_0000 - v in [10, 20])
  {
    hide Accepts;
    AcceptsAllowed(i, v, code);
  }

  // ----------------------------------------------------------------------------------------- writing

  /** What can be written: every field as a word may be, and of the grain both fields. */
  predicate Writable(p: Profile) {
    && Allowed(0, p.shootingCondition, p.iopCode) && Allowed(1, p.fileType, p.iopCode)
    && Allowed(2, p.imageSize, p.iopCode) && Allowed(3, p.imageQuality, p.iopCode)
    && Allowed(4, p.exposureBias, p.iopCode) && Allowed(5, p.dynamicRange, p.iopCode)
    && Allowed(6, p.wideDRange, p.iopCode) && Allowed(7, p.filmSimulation, p.iopCode)
    && p.grainEffect <= 3 && p.grainEffectSize in [0, 2]
    && Allowed(9, p.chromeEffect, p.iopCode) && Allowed(10, p.wbShootCond, p.iopCode)
    && Allowed(11, p.whiteBalance, p.iopCode) && Allowed(12, p.wbShiftR, p.iopCode)
    && Allowed(13, p.wbShiftB, p.iopCode) && Allowed(14, p.wbColorTemp, p.iopCode)
    && Allowed(15, p.highlightTone, p.iopCode) && Allowed(16, p.shadowTone, p.iopCode)
    && Allowed(17, p.color, p.iopCode) && Allowed(18, p.sharpness, p.iopCode)
    && Allowed(19, p.noiseReduction, p.iopCode) && Allowed(20, p.lensModulationOpt, p.iopCode)
    && Allowed(21, p.colorSpace, p.iopCode) && Allowed(22, p.blackImageTone, p.iopCode)
    && Allowed(24, p.colorChromeBlue, p.iopCode) && Allowed(25, p.monochromaticColorRG, p.iopCode)
    && Allowed(26, p.clarity, p.iopCode)
  }

  /** A zero that its list lacks is not written: the word is what the variable held before. */
  function OrStale(v: Word, stale: Word): Word {
    if v == 0 then stale else v
  }

  /** Where the fields are written. */
  predicate Written(c: seq<Byte>, p: Profile, stale: seq<Word>)
    requires |stale| == 29
  {
    && Word32(c, 0) == OrStale(p.shootingCondition, stale[0]) && Word32(c, 1) == OrStale(p.fileType, stale[1])
    && Word32(c, 2) == OrStale(p.imageSize, stale[2]) && Word32(c, 3) == OrStale(p.imageQuality, stale[3])
    && Word32(c, 4) == p.exposureBias && Word32(c, 5) == OrStale(p.dynamicRange, stale[5])
    && Word32(c, 6) == p.wideDRange && Word32(c, 7) == OrStale(p.filmSimulation, stale[7])
    && Word32(c, 8) == (OrStale(p.grainEffect, stale[8]) + p.grainEffectSize) % 0x1_0000_0000
    && Word32(c, 9) == OrStale(p.chromeEffect, stale[9]) && Word32(c, 10) == OrStale(p.wbShootCond, stale[10])
    && Word32(c, 11) == p.whiteBalance && Word32(c, 12) == p.wbShiftR && Word32(c, 13) == p.wbShiftB
    && Word32(c, 14) == p.wbColorTemp && Word32(c, 15) == p.highlightTone && Word32(c, 16) == p.shadowTone
    && Word32(c, 17) == p.color && Word32(c, 18) == p.sharpness && Word32(c, 19) == p.noiseReduction
    && Word32(c, 20) == OrStale(p.lensModulationOpt, stale[20]) && Word32(c, 21) == OrStale(p.colorSpace, stale[21])
    && Word32(c, 22) == p.blackImageTone && Word32(c, 24) == p.colorChromeBlue
    && Word32(c, 25) == p.monochromaticColorRG && Word32(c, 26) == p.clarity
    && Word32(c, 23) == Word32(c, 27) == Word32(c, 28) == 0
  }

  lemma {:induction false} PropWord(p: Profile, i: nat, stale: Word)
    requires i < 29 && i !in [8, 23, 27, 28]
    ensures GetProp(p, i, stale).Some? <==> Allowed(i, Get(p, i), p.iopCode)
    ensures GetProp(p, i, stale).Some? ==>
              GetProp(p, i, stale).value ==
              if i in [0, 1, 2, 3, 5, 7, 9, 10, 20, 21] then OrStale(Get(p, i), stale) else Get(p, i)
  {
    hide TableOf, Allowed, Get;
    ZeroListed(i, p.iopCode);
    AcceptsAllowed(i, Get(p, i), p.iopCode);
  }

  lemma {:induction false} GrainProp(p: Profile, stale: Word)
    ensures GetProp(p, 8, stale).Some? <==> p.grainEffect <= 3 && p.grainEffectSize in [0, 2]
    ensures GetProp(p, 8, stale).Some? ==>
              GetProp(p, 8, stale).value == (OrStale(p.grainEffect, stale) + p.grainEffectSize) % 0x1_0000_0000
  {
    hide TableOf;
  }

  lemma {:induction false} OtherProps(p: Profile, i: nat, stale: Word)
    requires i in [23, 27, 28]
    ensures GetProp(p, i, stale) == Some(0)
  {
  }

  /** The form has 629 bytes: the count, the length of the code and its eight digits, zeros, and the words.  It
      is made exactly if every field may be written. */
  lemma {:induction false} WritesFields(p: Profile, stale: seq<Word>)
    requires |stale| == 29
    ensures Create(p, stale).Some? <==> Writable(p)
    ensures Create(p, stale).Some? ==>
              var c := Create(p, stale).value;
              && |c| == 629 && Announced(c) == 29 && c[2] == 9 && Written(c, p, stale)
              && (forall k | 19 <= k < 0x201 :: c[k] == 0) && CodeStands(c, p.iopCode)
  {
    hide Get, GetProp, Create, Allowed, Word32, Header, Announced, CodeStands;
    CreateIs(p, 0, stale);
    CreateSome(p, stale);
    AllProps(p, stale);
    if Create(p, stale).Some? {
      var c := Create(p, stale).value;
      CreatedHead(p, stale);
      HeaderStands(p, stale);
      forall i: nat | i < 29
        ensures GetProp(p, i, stale[i]) == Some(Word32(c, i))
      {
        WordIs(c, i);
      }
      PropsWritten(p, stale, c);
    }
  }

  lemma {:induction false} CreateSome(p: Profile, stale: seq<Word>)
    requires |stale| == 29
    ensures Create(p, stale).Some? <==> CreateWords(p, 0, stale).Some?
  {
    hide CreateWords;
  }

  lemma {:induction false} AllProps(p: Profile, stale: seq<Word>)
    requires |stale| == 29
    ensures (forall i: nat | i < 29 :: GetProp(p, i, stale[i]).Some?) <==> Writable(p)
  {
    hide Get, GetProp, Allowed, Writable;
    forall i: nat | i < 29
      ensures GetProp(p, i, stale[i]).Some? <==>
              if i == 8 then p.grainEffect <= 3 && p.grainEffectSize in [0, 2]
              else i in [23, 27, 28] || Allowed(i, Get(p, i), p.iopCode)
    {
      if i == 8 {
        GrainProp(p, stale[8]);
      } else if i in [23, 27, 28] {
        OtherProps(p, i, stale[i]);
      } else {
        PropWord(p, i, stale[i]);
      }
    }
    AllowedAll(p);
    if forall i: nat | i < 29 :: GetProp(p, i, stale[i]).Some? {
      assert GetProp(p, 8, stale[8]).Some?;
    }
  }

  /** One by one and all at once. */
  lemma {:induction false} AllowedAll(p: Profile)
    ensures Writable(p) <==>
            p.grainEffect <= 3 && p.grainEffectSize in [0, 2]
            && forall i: nat | i < 29 && i !in [8, 23, 27, 28] :: Allowed(i, Get(p, i), p.iopCode)
  {
    hide Get, Allowed;
    FieldsTo7(p);
    FieldsTo14(p);
    FieldsTo20(p);
    FieldsTo26(p);
    if forall i: nat | i < 29 && i !in [8, 23, 27, 28] :: Allowed(i, Get(p, i), p.iopCode) {
      assert Allowed(0, Get(p, 0), p.iopCode) && Allowed(1, Get(p, 1), p.iopCode) && Allowed(2, Get(p, 2), p.iopCode);
      assert Allowed(3, Get(p, 3), p.iopCode) && Allowed(4, Get(p, 4), p.iopCode) && Allowed(5, Get(p, 5), p.iopCode);
      assert Allowed(6, Get(p, 6), p.iopCode) && Allowed(7, Get(p, 7), p.iopCode) && Allowed(9, Get(p, 9), p.iopCode);
      assert Allowed(10, Get(p, 10), p.iopCode) && Allowed(11, Get(p, 11), p.iopCode);
      assert Allowed(12, Get(p, 12), p.iopCode) && Allowed(13, Get(p, 13), p.iopCode);
      assert Allowed(14, Get(p, 14), p.iopCode) && Allowed(15, Get(p, 15), p.iopCode);
      assert Allowed(16, Get(p, 16), p.iopCode) && Allowed(17, Get(p, 17), p.iopCode);
      assert Allowed(18, Get(p, 18), p.iopCode) && Allowed(19, Get(p, 19), p.iopCode);
      assert Allowed(20, Get(p, 20), p.iopCode) && Allowed(21, Get(p, 21), p.iopCode);
      assert Allowed(22, Get(p, 22), p.iopCode) && Allowed(24, Get(p, 24), p.iopCode);
      assert Allowed(25, Get(p, 25), p.iopCode) && Allowed(26, Get(p, 26), p.iopCode);
    }
  }

  /** The word for a field, by number. */
  function Out(p: Profile, i: nat, stale: Word): Word {
    if i in [0, 1, 2, 3, 5, 7, 9, 10, 20, 21] then OrStale(Get(p, i), stale) else Get(p, i)
  }

  lemma {:induction false} OutTo7(p: Profile, s: seq<Word>)
    requires |s| == 29
    ensures Out(p, 0, s[0]) == OrStale(p.shootingCondition, s[0]) && Out(p, 1, s[1]) == OrStale(p.fileType, s[1])
    ensures Out(p, 2, s[2]) == OrStale(p.imageSize, s[2]) && Out(p, 3, s[3]) == OrStale(p.imageQuality, s[3])
    ensures Out(p, 4, s[4]) == p.exposureBias && Out(p, 5, s[5]) == OrStale(p.dynamicRange, s[5])
    ensures Out(p, 6, s[6]) == p.wideDRange && Out(p, 7, s[7]) == OrStale(p.filmSimulation, s[7])
  {
    hide Get, OrStale;
    FieldsTo7(p);
  }

  lemma {:induction false} OutTo14(p: Profile, s: seq<Word>)
    requires |s| == 29
    ensures Out(p, 9, s[9]) == OrStale(p.chromeEffect, s[9]) && Out(p, 10, s[10]) == OrStale(p.wbShootCond, s[10])
    ensures Out(p, 11, s[11]) == p.whiteBalance && Out(p, 12, s[12]) == p.wbShiftR
    ensures Out(p, 13, s[13]) == p.wbShiftB && Out(p, 14, s[14]) == p.wbColorTemp
  {
    hide Get, OrStale;
    FieldsTo14(p);
  }

  lemma {:induction false} OutTo26(p: Profile, s: seq<Word>)
    requires |s| == 29
    ensures Out(p, 15, s[15]) == p.highlightTone && Out(p, 16, s[16]) == p.shadowTone && Out(p, 17, s[17]) == p.color
    ensures Out(p, 18, s[18]) == p.sharpness && Out(p, 19, s[19]) == p.noiseReduction
    ensures Out(p, 20, s[20]) == OrStale(p.lensModulationOpt, s[20])
    ensures Out(p, 21, s[21]) == OrStale(p.colorSpace, s[21]) && Out(p, 22, s[22]) == p.blackImageTone
    ensures Out(p, 24, s[24]) == p.colorChromeBlue && Out(p, 25, s[25]) == p.monochromaticColorRG
    ensures Out(p, 26, s[26]) == p.clarity
  {
    hide Get, OrStale;
    FieldsTo20(p);
    FieldsTo26(p);
  }

  lemma {:induction false} PropsWritten(p: Profile, stale: seq<Word>, c: seq<Byte>)
    requires |stale| == 29 && forall i: nat | i < 29 :: GetProp(p, i, stale[i]) == Some(Word32(c, i))
    ensures Written(c, p, stale)
  {
    hide Get, GetProp, Word32, OrStale, Out;
    OutTo7(p, stale);
    OutTo14(p, stale);
    OutTo26(p, stale);
    OtherWords(p, stale, c);
    OutIs(p, 0, stale, c); OutIs(p, 1, stale, c); OutIs(p, 2, stale, c); OutIs(p, 3, stale, c); OutIs(p, 4, stale, c);
    OutIs(p, 5, stale, c); OutIs(p, 6, stale, c); OutIs(p, 7, stale, c); OutIs(p, 9, stale, c); OutIs(p, 10, stale, c);
    OutIs(p, 11, stale, c); OutIs(p, 12, stale, c); OutIs(p, 13, stale, c); OutIs(p, 14, stale, c);
    OutIs(p, 15, stale, c); OutIs(p, 16, stale, c); OutIs(p, 17, stale, c); OutIs(p, 18, stale, c);
    OutIs(p, 19, stale, c); OutIs(p, 20, stale, c); OutIs(p, 21, stale, c); OutIs(p, 22, stale, c);
    OutIs(p, 24, stale, c); OutIs(p, 25, stale, c); OutIs(p, 26, stale, c);
  }

  lemma {:induction false} OutIs(p: Profile, i: nat, stale: seq<Word>, c: seq<Byte>)
    requires |stale| == 29 && i < 29 && i !in [8, 23, 27, 28] && GetProp(p, i, stale[i]) == Some(Word32(c, i))
    ensures Word32(c, i) == Out(p, i, stale[i])
  {
    hide Get, GetProp, Word32, OrStale, Allowed;
    PropWord(p, i, stale[i]);
  }

  lemma {:induction false} OtherWords(p: Profile, stale: seq<Word>, c: seq<Byte>)
    requires |stale| == 29 && forall i: nat | i < 29 :: GetProp(p, i, stale[i]) == Some(Word32(c, i))
    ensures Word32(c, 8) == (OrStale(p.grainEffect, stale[8]) + p.grainEffectSize) % 0x1_0000_0000
    ensures Word32(c, 23) == Word32(c, 27) == Word32(c, 28) == 0
  {
    hide GetProp, Word32, OrStale;
    GrainProp(p, stale[8]);
    OtherProps(p, 23, stale[23]);
    OtherProps(p, 27, stale[27]);
    OtherProps(p, 28, stale[28]);
    assert GetProp(p, 8, stale[8]) == Some(Word32(c, 8)) && GetProp(p, 23, stale[23]) == Some(Word32(c, 23));
    assert GetProp(p, 27, stale[27]) == Some(Word32(c, 27)) && GetProp(p, 28, stale[28]) == Some(Word32(c, 28));
  }

  // ------------------------------------------------------------------------------------------- the code

  predicate IsHexDigit(x: int) {
    48 <= x <= 57 || 65 <= x <= 70
  }

  function HexValue(x: int): int {
    if x <= 57 then x - 48 else x - 55
  }

  /** Eight digits, each a character of two bytes, the most significant first. */
  predicate CodeStands(b: seq<Byte>, code: Word)
    requires |b| >= 19
  {
    && (forall i | 0 <= i < 8 :: IsHexDigit(b[3 + 2 * i]) && b[4 + 2 * i] == 0)
    && code == 0x1000_0000 * HexValue(b[3]) + 0x100_0000 * HexValue(b[5]) + 0x10_0000 * HexValue(b[7])
               + 0x1_0000 * HexValue(b[9]) + 0x1000 * HexValue(b[11]) + 0x100 * HexValue(b[13])
               + 0x10 * HexValue(b[15]) + HexValue(b[17])
  }

  lemma {:induction false} HeaderStands(p: Profile, stale: seq<Word>)
    requires |stale| == 29 && Create(p, stale).Some?
    ensures var c := Create(p, stale).value;
            && |c| == 629 && Announced(c) == 29 && c[2] == 9
            && (forall k | 19 <= k < 0x201 :: c[k] == 0) && CodeStands(c, p.iopCode)
  {
    hide CreateWords, Hex, HexDigit, CodeStands;
    var words := CreateWords(p, 0, stale).value;
    var h, c := Header(p.iopCode), Create(p, stale).value;
    assert c == h + words;
    HeaderAt(p.iopCode, words, 0);
    DigitsStand(p.iopCode, words);
  }

  lemma {:induction false} DigitsStand(code: Word, words: seq<Byte>)
    ensures CodeStands(Header(code) + words, code)
  {
    hide Header, Hex, HexDigit, Shift, U16, HexValue, IsHexDigit;
    var b := Header(code) + words;
    DigitStands(code, words, 0);
    DigitStands(code, words, 1);
    DigitStands(code, words, 2);
    DigitStands(code, words, 3);
    DigitStands(code, words, 4);
    DigitStands(code, words, 5);
    DigitStands(code, words, 6);
    DigitStands(code, words, 7);
    AllShifted(code);
    ShiftNone(code);
    forall i | 0 <= i < 8
      ensures IsHexDigit(b[3 + 2 * i]) && b[4 + 2 * i] == 0
    {
      DigitStands(code, words, i);
    }
  }

  lemma {:induction false} DigitStands(code: Word, words: seq<Byte>, i: nat)
    requires i < 8
    ensures var b := Header(code) + words;
            && IsHexDigit(b[3 + 2 * i]) && b[4 + 2 * i] == 0
            && Shift(code, 7 - i) == 16 * Shift(code, 8 - i) + HexValue(b[3 + 2 * i])
  {
    hide Header, Hex, Shift, HexDigit;
    HeaderAt(code, words, i);
    HexAt(code, 8, i);
    ShiftStep(code, 7 - i);
    HexDigitIs(Shift(code, 7 - i) % 16);
  }

  lemma {:induction false} HexDigitIs(d: nat)
    requires d < 16
    ensures IsHexDigit(HexDigit(d)) && HexValue(HexDigit(d)) == d
  {
  }

  /** Such a code is read, with or without the terminator the camera leaves out. */
  lemma {:induction false} ReadsCode(b: seq<Byte>, code: Word)
    requires |b| >= 0x200 && CodeStands(b, code) && (b[2] == 8 || (b[2] > 8 && b[19] == b[20] == 0))
    ensures ParseCode(b, 0, 0) == Some(code)
  {
    hide ParseCode, CodeStands, HexValue, IsHexDigit;
    CodeParts(b, code);
    var v1 := HexValue(b[3]);
    var v2 := 16 * v1 + HexValue(b[5]);
    var v3 := 16 * v2 + HexValue(b[7]);
    var v4 := 16 * v3 + HexValue(b[9]);
    var v5 := 16 * v4 + HexValue(b[11]);
    var v6 := 16 * v5 + HexValue(b[13]);
    var v7 := 16 * v6 + HexValue(b[15]);
    DigitRead(b, 0, 0);
    DigitRead(b, 1, v1);
    DigitRead(b, 2, v2);
    DigitRead(b, 3, v3);
    DigitRead(b, 4, v4);
    DigitRead(b, 5, v5);
    DigitRead(b, 6, v6);
    DigitRead(b, 7, v7);
    CodeStops(b, code);
  }

  lemma {:induction false} CodeParts(b: seq<Byte>, code: Word)
    requires |b| >= 0x200 && CodeStands(b, code)
    ensures forall i | 0 <= i < 8 :: IsHexDigit(b[3 + 2 * i]) && b[4 + 2 * i] == 0 && 0 <= HexValue(b[3 + 2 * i]) < 16
    ensures 0 <= HexValue(b[3]) < 16 && 0 <= HexValue(b[5]) < 16 && 0 <= HexValue(b[7]) < 16 && 0 <= HexValue(b[9]) < 16
    ensures 0 <= HexValue(b[11]) < 16 && 0 <= HexValue(b[13]) < 16 && 0 <= HexValue(b[15]) < 16
    ensures 0 <= HexValue(b[17]) < 16
    ensures code == 0x1000_0000 * HexValue(b[3]) + 0x100_0000 * HexValue(b[5]) + 0x10_0000 * HexValue(b[7])
                    + 0x1_0000 * HexValue(b[9]) + 0x1000 * HexValue(b[11]) + 0x100 * HexValue(b[13])
                    + 0x10 * HexValue(b[15]) + HexValue(b[17])
  {
    assert IsHexDigit(b[3 + 2 * 0]) && IsHexDigit(b[3 + 2 * 1]) && IsHexDigit(b[3 + 2 * 2]) && IsHexDigit(b[3 + 2 * 3]);
    assert IsHexDigit(b[3 + 2 * 4]) && IsHexDigit(b[3 + 2 * 5]) && IsHexDigit(b[3 + 2 * 6]) && IsHexDigit(b[3 + 2 * 7]);
  }

  lemma {:induction false} DigitRead(b: seq<Byte>, i: nat, v: Word)
    requires |b| >= 0x200 && i < 8 && b[2] >= 8 && IsHexDigit(b[3 + 2 * i]) && b[4 + 2 * i] == 0
    requires v < 0x1000_0000
    ensures ParseCode(b, i, v) == ParseCode(b, i + 1, Wrap(16 * v + HexValue(b[3 + 2 * i])))
    ensures Wrap(16 * v + HexValue(b[3 + 2 * i])) == 16 * v + HexValue(b[3 + 2 * i])
  {
    assert U16(b, 3 + 2 * i) == b[3 + 2 * i] as int;
    assert DigitOf(b[3 + 2 * i]) == HexValue(b[3 + 2 * i]);
  }

  lemma {:induction false} CodeStops(b: seq<Byte>, code: Word)
    requires |b| >= 0x200 && (b[2] == 8 || (b[2] > 8 && b[19] == b[20] == 0))
    ensures ParseCode(b, 8, code) == Some(code)
  {
  }

  /** A character of the code, of two bytes. */
  function CodeChar(b: seq<Byte>, i: nat): nat
    requires |b| >= 0x200 && i <= 9
  {
    b[3 + 2 * i] as int + 0x100 * b[4 + 2 * i] as int
  }

  /** A code with any other character among its digits is rejected, and so is one of more than nine digits. */
  lemma {:induction false} CodeRejected(b: seq<Byte>, i: nat, j: nat, code: Word)
    requires |b| >= 0x200 && j <= i <= 9 && i < b[2] && CodeChar(b, i) != 0 && (i < 9 ==> !IsHexDigit(CodeChar(b, i)))
    requires forall k: nat | j <= k < i :: IsHexDigit(CodeChar(b, k))
    ensures ParseCode(b, j, code) == None
    decreases i - j
  {
    assert U16(b, 3 + 2 * j) == CodeChar(b, j);
    if j < i {
      assert IsHexDigit(CodeChar(b, j));
      CodeRejected(b, i, j + 1, Wrap(code * 16 + DigitOf(CodeChar(b, j))));
    }
  }
}

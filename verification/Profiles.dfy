/** Conversion profiles: the record, the tables of values its fields may take, merging and sanitising. */
module Profiles {
  import opened Words

  datatype Option<T> = None | Some(value: T)

  datatype Profile = Profile(
    structVer: Word,
    iopCode: Word,
    shootingCondition: Word,
    fileType: Word,
    imageSize: Word,
    rotationAngle: Word,
    imageQuality: Word,
    exposureBias: Word,
    dynamicRange: Word,
    wideDRange: Word,
    filmSimulation: Word,
    blackImageTone: Word,
    monochromaticColorRG: Word,
    grainEffect: Word,
    grainEffectSize: Word,
    chromeEffect: Word,
    colorChromeBlue: Word,
    smoothSkinEffect: Word,
    wbShootCond: Word,
    whiteBalance: Word,
    wbShiftR: Word,
    wbShiftB: Word,
    wbColorTemp: Word,
    highlightTone: Word,
    shadowTone: Word,
    color: Word,
    sharpness: Word,
    noiseReduction: Word,
    clarity: Word,
    lensModulationOpt: Word,
    colorSpace: Word,
    hdr: Word)

  /** A record that is all zero but for the version and the processor code. */
  function Blank(structVer: Word, iopCode: Word): Profile {
    Profile(structVer, iopCode, 0, 0, 0, 0, 0, 0, 0, 0, 0, 0, 0, 0, 0, 0,
            0, 0, 0, 0, 0, 0, 0, 0, 0, 0, 0, 0, 0, 0, 0, 0)
  }

  // --------------------------------------------------------------------------------------- tables

  type Table = seq<Word>

  /** `n` values from `first` on, `step` apart. */
  function Steps(first: nat, step: nat, n: nat): Table
    requires first + step * n <= 0x1_0000_0000
    requires step > 0
  {
    seq(n, i requires 0 <= i < n => StepAt(first, step, n, i))
  }

  function StepAt(first: nat, step: nat, n: nat, i: nat): Word
    requires i < n && 0 < step && first + step * n <= 0x1_0000_0000
  {
    StepsBelow(step, n, i);
    first + step * i
  }

  lemma {:induction false} StepsBelow(step: nat, n: nat, i: nat)
    requires i < n
    ensures step * i + step <= step * n
    decreases n
  {
    if i < n - 1 {
      StepsBelow(step, n - 1, i);
    }
  }

  /** `step`, `2 * step`, up to `n * step`, and below zero down to `-m * step`. */
  function Range(n: nat, m: nat, step: nat): Table
    requires 0 < step <= 10 && n <= 18 && m <= 18
  {
    Steps(step, step, n) + [0] + Steps(0x1_0000_0000 - step * m, step, m)
  }

  const FILE_TYPE: Table := [7, 9, 11]
  const IMAGE_SIZE: Table := [7, 8, 9, 4, 5, 6, 1, 2, 3]
  const IMAGE_QUALITY: Table := [2, 3]
  const EXPOSURE_BIAS: Table :=
    [ 3000, 2667, 2333, 2000, 1667, 1333, 1000, 667, 333, 0,
      0xfffffeb3, 0xfffffd65, 0xfffffc18, 0xfffffacb, 0xfffff97d, 0xfffff830, 0xfffff6e3, 0xfffff595, 0xfffff448 ]
  const FILM_SIM: Table := [1, 2, 3, 11, 17, 5, 4, 14, 15, 13, 12, 16, 6, 7, 8, 9, 10, 11]
  const SHOOTING_CONDITION: Table := [1, 2]
  const D_RANGE: Table := [100, 200, 400]
  const D_RANGE_PRIORITY: Table := [0, 0, 1, 2, 3]
  const COLOR_CHROME_BLUE: Table := [0, 1, 2]
  const GRAIN_EFFECT: Table := [1, 2, 3]
  const GRAIN_EFFECT_SIZE: Table := [0, 2]
  const CHROME_EFFECT: Table := [1, 2, 3]
  const WHITE_BALANCE_MODE: Table :=
    [0, 1, 2, 0x8008, 0x8009, 0x800a, 0x8007, 4, 0x8006, 0x8001, 0x8002, 0x8003, 6, 8]
  const WHITE_BALANCE_SHOOT_COND: Table := [1, 2]
  const NOISE_REDUCTION: Table := [0x5000, 0x6000, 0, 0x1000, 0x2000, 0x3000, 0x4000, 0x7000, 0x8000]
  const LENS_MODULATION: Table := [1, 2]
  const COLOR_SPACE: Table := [1, 2, 3]

  function ColorTemp(): Table {
    [0, 2200] + Steps(2500, 10, 750) + [1000]
  }

  const GRAIN_OFF: Word := 1
  const GRAIN_STRONG: Word := 3
  const GRAIN_SIZE_SMALL: Word := 0
  const GRAIN_SIZE_LARGE: Word := 2

  predicate IsXProcessor5(iopCode: Word) {
    iopCode / 0x100 % 0x1_0000 == 0x1795
  }

  /** Highlight and shadow tones of newer processors go by halves. */
  function ToneTable(iopCode: Word): Table {
    if IsXProcessor5(iopCode) then Range(8, 8, 5) else Range(4, 2, 10)
  }

  // --------------------------------------------------------------------------------------- merging

  /** A record that others point to. */
  class FujiProfile {
    var p: Profile

    constructor (p: Profile)
      ensures this.p == p
    {
      this.p := p;
    }

    /** Overwrites with the settings of another profile; some are left as they are. */
    method Apply(from: FujiProfile)
      modifies this
      ensures p == Merged(old(from.p), old(p))
    {
      p := p.(shootingCondition := from.p.shootingCondition);
      p := p.(fileType := from.p.fileType);
      p := p.(imageSize := from.p.imageSize);
      p := p.(rotationAngle := from.p.rotationAngle);
      p := p.(imageQuality := from.p.imageQuality);
      p := p.(exposureBias := from.p.exposureBias);
      p := p.(dynamicRange := from.p.dynamicRange);
      p := p.(wideDRange := from.p.wideDRange);
      p := p.(filmSimulation := from.p.filmSimulation);
      p := p.(blackImageTone := from.p.blackImageTone);
      p := p.(monochromaticColorRG := from.p.monochromaticColorRG);
      p := p.(grainEffect := from.p.grainEffect);
      p := p.(grainEffectSize := from.p.grainEffectSize);
      p := p.(chromeEffect := from.p.chromeEffect);
      p := p.(colorChromeBlue := from.p.colorChromeBlue);
      p := p.(smoothSkinEffect := from.p.smoothSkinEffect);
      p := p.(wbShootCond := from.p.wbShootCond);
      p := p.(whiteBalance := from.p.whiteBalance);
      p := p.(wbShiftR := from.p.wbShiftR);
      p := p.(wbShiftB := from.p.wbShiftB);
      p := p.(wbColorTemp := from.p.wbColorTemp);
      p := p.(highlightTone := from.p.highlightTone);
      p := p.(shadowTone := from.p.shadowTone);
      p := p.(color := from.p.color);
      p := p.(sharpness := from.p.sharpness);
      p := p.(noiseReduction := from.p.noiseReduction);
    }

    /** Enforces rules about overlapping settings. */
    method Sanitise() returns (rc: int)
      modifies this
      ensures Sanitised(old(p)) == if rc == 0 then Some(p) else None
      ensures rc == 0 || rc == -1
    {
      if p.wbShootCond == 1 {
        p := p.(whiteBalance := 1);
        p := p.(wbColorTemp := 0);
        p := p.(wbShiftR := 0);
        p := p.(wbShiftB := 0);
      }
      if p.hdr == 801 {
        if p.wideDRange != 3 {
          return -1;
        }
        p := p.(dynamicRange := 800);
      } else if p.hdr == 800 || p.hdr == 400 || p.hdr == 200 {
        p := p.(dynamicRange := p.hdr);
      }
      if p.fileType == 9 || p.fileType == 11 {
        p := p.(imageQuality := 0);
        p := p.(imageSize := 0);
      }
      if p.grainEffect == GRAIN_OFF {
        p := p.(grainEffectSize := 0);
      }
      if p.filmSimulation in MONOCHROME {
        p := p.(color := 0);
      } else if p.filmSimulation == SEPIA {
        p := p.(color := 0);
        p := p.(monochromaticColorRG := 0);
        p := p.(blackImageTone := 0);
      } else {
        p := p.(monochromaticColorRG := 0);
        p := p.(blackImageTone := 0);
      }
      return 0;
    }
  }

  const MONOCHROME: Table := [12, 13, 14, 15, 6, 7, 8, 9]
  const SEPIA: Word := 10

  /** The settings of `from`, with what merging leaves alone taken from `to`. */
  function Merged(from: Profile, to: Profile): Profile {
    from.(structVer := to.structVer, iopCode := to.iopCode, clarity := to.clarity,
          lensModulationOpt := to.lensModulationOpt, colorSpace := to.colorSpace, hdr := to.hdr)
  }

  /** What sanitising makes of a profile, rule by rule; an inconsistent profile is rejected. */
  function Sanitised(p: Profile): Option<Profile> {
    var asShot, mono := p.wbShootCond == 1, p.filmSimulation in MONOCHROME;
    var tiff, colored := p.fileType == 9 || p.fileType == 11, !mono && p.filmSimulation != SEPIA;
    if p.hdr == 801 && p.wideDRange != 3 then None
    else
      Some(p.(
        whiteBalance := if asShot then 1 else p.whiteBalance,
        wbColorTemp := if asShot then 0 else p.wbColorTemp,
        wbShiftR := if asShot then 0 else p.wbShiftR,
        wbShiftB := if asShot then 0 else p.wbShiftB,
        dynamicRange := if p.hdr == 801 then 800 else if p.hdr in [800, 400, 200] then p.hdr else p.dynamicRange,
        imageQuality := if tiff then 0 else p.imageQuality,
        imageSize := if tiff then 0 else p.imageSize,
        grainEffectSize := if p.grainEffect == GRAIN_OFF then 0 else p.grainEffectSize,
        color := if colored then p.color else 0,
        monochromaticColorRG := if mono then p.monochromaticColorRG else 0,
        blackImageTone := if mono then p.blackImageTone else 0))
  }

  /** What each rule leaves in which field; 801 stands for the HDR mode 800PLUS, 3 for its range priority. */
  lemma {:induction false} Rules(p: Profile)
    ensures Sanitised(p) == None <==> p.hdr == 801 && p.wideDRange != 3
    ensures Sanitised(p).Some? ==>
              var q := Sanitised(p).value;
              && (p.wbShootCond == 1 ==> q.whiteBalance == 1 && q.wbColorTemp == q.wbShiftR == q.wbShiftB == 0)
              && (p.hdr in [200, 400, 800] ==> q.dynamicRange == p.hdr) && (p.hdr == 801 ==> q.dynamicRange == 800)
              && (p.fileType in [9, 11] ==> q.imageQuality == q.imageSize == 0)
              && (p.grainEffect == 1 ==> q.grainEffectSize == 0)
              && (p.filmSimulation in [6, 7, 8, 9, 10, 12, 13, 14, 15] ==> q.color == 0)
              && (p.filmSimulation !in [6, 7, 8, 9, 12, 13, 14, 15] ==> q.monochromaticColorRG == q.blackImageTone == 0)
    ensures Sanitised(p).Some? ==>
              var q := Sanitised(p).value;
              && (p.wbShootCond != 1 ==>
                    && q.whiteBalance == p.whiteBalance && q.wbColorTemp == p.wbColorTemp
                    && q.wbShiftR == p.wbShiftR && q.wbShiftB == p.wbShiftB)
              && (p.hdr !in [200, 400, 800, 801] ==> q.dynamicRange == p.dynamicRange)
              && (p.fileType !in [9, 11] ==> q.imageQuality == p.imageQuality && q.imageSize == p.imageSize)
              && (p.grainEffect != 1 ==> q.grainEffectSize == p.grainEffectSize)
              && (p.filmSimulation !in [6, 7, 8, 9, 10, 12, 13, 14, 15] ==> q.color == p.color)
              && (p.filmSimulation in [6, 7, 8, 9, 12, 13, 14, 15] ==>
                    q.monochromaticColorRG == p.monochromaticColorRG && q.blackImageTone == p.blackImageTone)
              && q == p.(whiteBalance := q.whiteBalance, wbColorTemp := q.wbColorTemp, wbShiftR := q.wbShiftR,
                         wbShiftB := q.wbShiftB, dynamicRange := q.dynamicRange, imageQuality := q.imageQuality,
                         imageSize := q.imageSize, grainEffectSize := q.grainEffectSize, color := q.color,
                         monochromaticColorRG := q.monochromaticColorRG, blackImageTone := q.blackImageTone)
  {
  }
}

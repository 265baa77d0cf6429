/** Files by their bytes: a picture with its directories, and a raw file, which holds one behind a header. */
module RawFiles {
  import opened Exif
  import opened Words

  // --------------------------------------------------------------------------- a picture behind a header

  /** What a picture says once it stands `d` bytes further back: places move, sizes do not. */
  predicate Moved(f: Found, g: Found, d: nat) {
    && g.exifStart == f.exifStart + d && g.subifd == f.subifd && g.thumbSize == f.thumbSize
    && (g.thumbOf == Wrap(f.thumbOf + d) || f.thumbOf == g.thumbOf == 0)
  }

  lemma {:induction false} SameBytes(h: seq<Byte>, j: seq<Byte>, of: int, n: nat)
    requires Has(j, of, n)
    ensures Has(h + j, |h| + of, n)
    ensures forall i | of <= i < of + n :: (h + j)[|h| + i] == j[i]
    ensures (h + j)[|h| + of..|h| + of + n] == j[of..of + n]
    ensures n >= 2 ==> U16(h + j, |h| + of) == U16(j, of)
    ensures n >= 4 ==> U32(h + j, |h| + of) == U32(j, of)
  {
  }

  lemma {:induction false} EntryMoves(h: seq<Byte>, j: seq<Byte>, of: int, f: Found, g: Found)
    requires Has(j, of, 12) && Moved(f, g, |h|)
    ensures Has(h + j, |h| + of, 12) && Moved(Entry(j, of, f), Entry(h + j, |h| + of, g), |h|)
  {
    hide U16, U32;
    SameBytes(h, j, of, 12);
    SameBytes(h, j, of, 2);
    SameBytes(h, j, of + 8, 4);
    var tag, value := U16(j, of), U32(j, of + 8);
    assert Wrap(Wrap(f.exifStart + value) + |h|) == Wrap(g.exifStart + value);
  }

  lemma {:induction false} EntriesMove(h: seq<Byte>, j: seq<Byte>, of: int, n: nat, f: Found, g: Found)
    requires Moved(f, g, |h|) && 0 <= of && Entries(j, of, n, f).Done?
    ensures Entries(h + j, |h| + of, n, g).Done?
    ensures Moved(Entries(j, of, n, f).found, Entries(h + j, |h| + of, n, g).found, |h|)
    decreases n
  {
    hide Entry, Moved;
    if n > 0 {
      EntryMoves(h, j, of, f, g);
      EntriesMove(h, j, of + 12, n - 1, Entry(j, of, f), Entry(h + j, |h| + of, g));
    }
  }

  /** A step from one offset to another, when places move. */
  lemma {:induction false} WrapMoves(d: nat, x: int, size: nat)
    requires Wrap(x) <= size && d + size < 0x1_0000_0000
    ensures Wrap(d + x) == d + Wrap(x)
  {
  }

  lemma {:induction false} IfdMoves(h: seq<Byte>, j: seq<Byte>, x: int, f: Found, g: Found)
    requires Moved(f, g, |h|) && |h| + |j| < 0x1_0000_0000 && Ifd(j, Wrap(x), f).Done?
    ensures var a, b := Ifd(j, Wrap(x), f), Ifd(h + j, Wrap(|h| + x), g);
            b.Done? && b.of == |h| + a.of && Moved(a.found, b.found, |h|)
  {
    hide Entries, Moved, U16, Wrap;
    var of := Wrap(x);
    WrapMoves(|h|, x, |j|);
    SameBytes(h, j, of, 2);
    EntriesMove(h, j, of + 2, U16(j, of), f, g);
  }

  /** Two outcomes that say the same with places moved. */
  predicate Alike(a: Outcome, b: Outcome, d: nat) {
    match a
    case Done(f, _) => b.Done? && Moved(f, b.found, d)
    case NoHeader => b == NoHeader
    case Fault => true
  }

  lemma {:induction false} LinkedMoves(h: seq<Byte>, j: seq<Byte>, at: Word, f: Found, g: Found)
    requires Moved(f, g, |h|) && |h| + |j| < 0x1_0000_0000
    ensures Alike(Linked(j, at, f), Linked(h + j, at, g), |h|)
  {
    hide Ifd;
    assert g.exifStart + at == |h| + (f.exifStart + at);
    if Linked(j, at, f).Done? {
      IfdMoves(h, j, f.exifStart + at, f, g);
    } else {
      IfdHasHeader(j, Wrap(f.exifStart + at), f);
    }
  }

  lemma {:induction false} IfdHasHeader(j: seq<Byte>, of: int, f: Found)
    ensures Ifd(j, of, f) != NoHeader
  {
    if Has(j, of, 2) {
      EntriesHaveHeader(j, of + 2, U16(j, of), f);
    }
  }

  lemma {:induction false} EntriesHaveHeader(j: seq<Byte>, of: int, n: nat, f: Found)
    ensures Entries(j, of, n, f) != NoHeader
    decreases n
  {
    if n > 0 && Has(j, of, 12) {
      EntriesHaveHeader(j, of + 12, n - 1, Entry(j, of, f));
    }
  }

  lemma {:induction false} SubMoves(h: seq<Byte>, j: seq<Byte>, a: Outcome, b: Outcome)
    requires Alike(a, b, |h|) && |h| + |j| < 0x1_0000_0000
    ensures Alike(Sub(j, a), Sub(h + j, b), |h|)
  {
    hide Linked;
    if a.Done? {
      LinkedMoves(h, j, a.found.subifd, a.found, b.found);
    }
  }

  lemma {:induction false} LinksMove(h: seq<Byte>, j: seq<Byte>, a: Outcome, b: Outcome)
    requires Alike(a, b, |h|) && |h| + |j| < 0x1_0000_0000 && (a.Done? ==> b.of == |h| + a.of)
    ensures Alike(Links(j, a), Links(h + j, b), |h|)
  {
    hide Linked, Sub, Moved, U32;
    if a.Done? && Has(j, a.of, 4) {
      SameBytes(h, j, a.of, 4);
      var ifd1 := U32(j, a.of);
      LinkedMoves(h, j, ifd1, a.found, b.found);
      SubMoves(h, j, Second(j, ifd1, a), Second(h + j, ifd1, b));
    }
  }

  lemma {:induction false} TiffMoves(h: seq<Byte>, j: seq<Byte>, of: int, f: Found, g: Found)
    requires Moved(f, g, |h|) && |h| + |j| < 0x1_0000_0000
    ensures Alike(Tiff(j, of, f), Tiff(h + j, |h| + of, g), |h|)
  {
    hide Ifd, Links, Moved, U32;
    if Has(j, of, 8) {
      SameBytes(h, j, of, 8);
      SameBytes(h, j, of + 4, 4);
      var x := of + 8 + U32(j, of + 4) - 8;
      var a, b := Ifd(j, Wrap(x), f), Ifd(h + j, Wrap(|h| + x), g);
      IfdHasHeader(j, Wrap(x), f);
      if a.Done? {
        IfdMoves(h, j, x, f, g);
      }
      LinksMove(h, j, a, b);
    }
  }

  lemma {:induction false} BlockMoves(h: seq<Byte>, j: seq<Byte>, of: int)
    requires |h| + |j| < 0x1_0000_0000
    ensures Alike(ExifBlock(j, of, NOTHING), ExifBlock(h + j, |h| + of, NOTHING), |h|)
  {
    hide Tiff, Wrap, Moved;
    if Has(j, of, 6) {
      SameBytes(h, j, of, 6);
      if Matches(j, of, EXIF) {
        StartMoves(|h|, of + 6);
        TiffMoves(h, j, of + 6, NOTHING.(exifStart := Wrap(of + 6)), NOTHING.(exifStart := Wrap(|h| + of + 6)));
      }
    }
  }

  lemma {:induction false} StartMoves(d: nat, of: nat)
    requires d + of < 0x1_0000_0000
    ensures Moved(NOTHING.(exifStart := Wrap(of)), NOTHING.(exifStart := Wrap(d + of)), d)
  {
  }

  lemma {:induction false} PictureMoves(h: seq<Byte>, j: seq<Byte>)
    requires |h| + |j| < 0x1_0000_0000 && |j| >= 2 && j[0] == 0xFF && j[1] == 0xD8
    ensures Alike(Picture(j, 0), Picture(h + j, |h|), |h|)
  {
    hide ExifBlock, Moved;
    SameBytes(h, j, 0, 2);
    assert (h + j)[|h| + 0] == j[0] && (h + j)[|h| + 1] == j[1];
    if Has(j, 2, 8) {
      SameBytes(h, j, 2, 8);
      SameBytes(h, j, 6, 4);
      BlockMoves(h, j, 6);
      BlockMoves(h, j, 24);
      assert (h + j)[|h| + 6..|h| + 6 + 4] == j[6..10];
      assert Matches(h + j, |h| + 6, JFIF) == Matches(j, 6, JFIF);
      assert |h| + 24 < 0x1_0000_0000 || ExifBlock(j, 24, NOTHING) == Fault by { NoBlock(j); }
    }
  }

  lemma {:induction false} NoBlock(j: seq<Byte>)
    ensures |j| < 30 ==> ExifBlock(j, 24, NOTHING) == Fault
  {
  }

  /** A raw file: a header of the name of its format, with the place of the picture at 0x54, the high byte
      first, and then the picture. */
  predicate IsHeader(h: seq<Byte>) {
    && |h| >= 0x58
    && h[..15] == [0x46, 0x55, 0x4A, 0x49, 0x46, 0x49, 0x4C, 0x4D, 0x43, 0x43, 0x44, 0x2D, 0x52, 0x41, 0x57]
    && |h| == 0x100_0000 * h[0x54] as int + 0x1_0000 * h[0x55] as int + 0x100 * h[0x56] as int + h[0x57] as int
  }

  /** Behind such a header a picture says what it says on its own, with the start of its block and a thumbnail
      further back by the length of the header. */
  lemma {:induction false} RawFile(h: seq<Byte>, j: seq<Byte>)
    requires IsHeader(h) && |h| + |j| < 0x1_0000_0000 && |j| >= 15 && j[0] == 0xFF && j[1] == 0xD8
    ensures match Whole(j)
            case Done(f, _) =>
              && Whole(h + j).Done?
              && var g := Whole(h + j).found;
                 && g.exifStart == f.exifStart + |h| && g.subifd == f.subifd && g.thumbSize == f.thumbSize
                 && (f.thumbOf != 0 ==> g.thumbOf == (f.thumbOf + |h|) % 0x1_0000_0000)
            case NoHeader => Whole(h + j) == NoHeader
            case Fault => true
  {
    hide Picture;
    assert (h + j)[0..15] == h[..15];
    assert j[0..15][0] == 0xFF;
    assert Be32(h + j, 0x54) == |h|;
    PictureMoves(h, j);
  }

  /** And a run over the raw file that looks at fetched bytes only finds it there. */
  lemma {:induction false} RawRun(w: World, n: nat, replies: seq<Reply>, h: seq<Byte>, j: seq<Byte>)
    requires IsHeader(h) && w.file == h + j && n <= |w.file| < 0x1_0000_0000
    requires |j| >= 15 && j[0] == 0xFF && j[1] == 0xD8 && Whole(j).Done?
    ensures var r, f := RunRaw(w, FirstChunk(w.file, n, replies)), Whole(j).found;
            r.store.inside && r.result != GaveUp ==>
              && r.result == Success
              && r.found.exifStart == f.exifStart + |h| && r.found.subifd == f.subifd && r.found.thumbSize
                  == f.thumbSize
              && (f.thumbOf != 0 ==> r.found.thumbOf == (f.thumbOf + |h|) % 0x1_0000_0000)
  {
    hide RunRaw, Walk, Plan, Whole;
    RawFile(h, j);
    FollowRaw(w, n, replies);
  }

  // ------------------------------------------------------------------------------------- literal files

  /** A picture with a JFIF part in front of its block.  Its first directory points to one that holds a size;
      the directory linked behind it holds the place of the thumbnail and another size, and is read before. */
  function Sample(): (f: seq<Byte>)
    ensures |f| == 100
  {
    [0xFF, 0xD8, 0xFF, 0xE0, 0, 16, 0x4A, 0x46, 0x49, 0x46, 0, 1, 1, 0, 0, 1, 0, 1, 0, 0, 0xFF, 0xE1, 0, 72]
    + [0x45, 0x78, 0x69, 0x66, 0, 0, 0x49, 0x49, 0x2A, 0, 8, 0, 0, 0]
    + [1, 0, 0x69, 0x87, 4, 0, 1, 0, 0, 0, 26, 0, 0, 0, 40, 0, 0, 0]
    + [1, 0, 0x02, 0x02, 4, 0, 1, 0, 0, 0, 50, 0, 0, 0]
    + [2, 0, 0x01, 0x02, 4, 0, 1, 0, 0, 0, 100, 0, 0, 0, 0x02, 0x02, 4, 0, 1, 0, 0, 0, 7, 0, 0, 0]
    + [0, 0, 0, 0]
  }

  lemma {:induction false} SampleHead()
    ensures var f := Sample();
            && f[0] == 0xFF && f[1] == 0xD8 && f[6..10] == [0x4A, 0x46, 0x49, 0x46]
            && f[24..30] == [0x45, 0x78, 0x69, 0x66, 0, 0]
  {
    var f := Sample();
    assert f[6] == 0x4A && f[7] == 0x46 && f[8] == 0x49 && f[9] == 0x46;
    assert f[24] == 0x45 && f[25] == 0x78 && f[26] == 0x69 && f[27] == 0x66 && f[28] == 0 && f[29] == 0;
    hide Sample;
    assert f[6..10] == [0x4A, 0x46, 0x49, 0x46];
    assert f[24..30] == [0x45, 0x78, 0x69, 0x66, 0, 0];
  }

  lemma {:induction false} SampleBytes()
    ensures var f := Sample();
            && U32(f, 34) == 8 && U16(f, 38) == 1 && U16(f, 40) == 0x8769 && U32(f, 48) == 26 && U32(f, 52) == 40
            && U16(f, 56) == 1 && U16(f, 58) == 0x0202 && U32(f, 66) == 50
            && U16(f, 70) == 2 && U16(f, 72) == 0x0201 && U32(f, 80) == 100 && U16(f, 84) == 0x0202 && U32(f, 92) == 7
  {
  }

  lemma {:induction false} SampleSays()
    ensures Whole(Sample()).Done? && Whole(Sample()).found == Found(30, 26, 130, 50)
  {
    hide Sample, U16, U32;
    var f := Sample();
    SampleHead();
    SampleBytes();
    assert f[0..15][0] == 0xFF;
    SampleDirectories();
    assert Segment(f, 2, NOTHING) == ExifBlock(f, 24, NOTHING);
    assert ExifBlock(f, 24, NOTHING) == Tiff(f, 30, Found(30, 0, 0, 0));
  }

  lemma {:induction false} SampleDirectories()
    ensures var t := Tiff(Sample(), 30, Found(30, 0, 0, 0)); t.Done? && t.found == Found(30, 26, 130, 50)
  {
    hide Sample, U16, U32;
    var f := Sample();
    SampleBytes();
    assert Entries(f, 52, 0, Found(30, 26, 0, 0)) == Done(Found(30, 26, 0, 0), 52);
    assert Ifd(f, 38, Found(30, 0, 0, 0)) == Done(Found(30, 26, 0, 0), 52);
    assert Entries(f, 84, 1, Found(30, 26, 130, 0)) == Done(Found(30, 26, 130, 7), 96) by {
      assert Entries(f, 96, 0, Found(30, 26, 130, 7)) == Done(Found(30, 26, 130, 7), 96);
    }
    assert Ifd(f, 70, Found(30, 26, 0, 0)) == Done(Found(30, 26, 130, 7), 96);
    assert Ifd(f, 56, Found(30, 26, 130, 7)) == Done(Found(30, 26, 130, 50), 70) by {
      assert Entries(f, 70, 0, Found(30, 26, 130, 50)) == Done(Found(30, 26, 130, 50), 70);
    }
    assert Wrap(30 + 8 + 8 - 8) == 38 && Wrap(30 + 26) == 56 && Wrap(30 + 40) == 70;
  }

  function SampleHeader(): (h: seq<Byte>)
    ensures |h| == 0x94
  {
    [0x46, 0x55, 0x4A, 0x49, 0x46, 0x49, 0x4C, 0x4D, 0x43, 0x43, 0x44, 0x2D, 0x52, 0x41, 0x57]
    + seq(69, _ => 0) + [0, 0, 0, 0x94] + seq(60, _ => 0)
  }

  lemma {:induction false} SampleHeaderIs()
    ensures IsHeader(SampleHeader())
  {
    var h := SampleHeader();
    assert h[0x54] == 0 && h[0x55] == 0 && h[0x56] == 0 && h[0x57] == 0x94;
  }

  /** The same picture in a raw file. */
  lemma {:induction false} RawSampleSays()
    ensures var f := SampleHeader() + Sample(); Whole(f).Done? && Whole(f).found == Found(178, 26, 278, 50)
  {
    hide Sample, Whole, SampleHeader, IsHeader;
    SampleHeaderIs();
    SampleHead();
    SampleSays();
    RawFile(SampleHeader(), Sample());
  }

  /** A file that begins neither with such a header nor as a picture does holds nothing, and that is no error. */
  lemma {:induction false} NotAPicture(f: seq<Byte>)
    requires |f| >= 15 && (f[0] != 0xFF || f[1] != 0xD8)
    requires f[..15] != [0x46, 0x55, 0x4A, 0x49, 0x46, 0x49, 0x4C, 0x4D, 0x43, 0x43, 0x44, 0x2D, 0x52, 0x41, 0x57]
    ensures Whole(f) == Done(Found(0, 0, 0, 0), 0)
  {
    assert f[0..15] == f[..15];
  }
}

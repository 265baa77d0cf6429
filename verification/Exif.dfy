/** Finding the thumbnail of a picture while fetching only as much of the file as is looked at.  Some looks
    have no fetch in front of them; behind the buffer they see what memory happens to hold. */
module Exif {
  import opened Words
  import Download

  const THUMB_OFFSET := 0x0201
  const THUMB_SIZE := 0x0202
  const SUB_IFD := 0x8769

  /** What parsing fills in. */
  datatype Found = Found(exifStart: Word, subifd: Word, thumbOf: Word, thumbSize: Word)

  // ------------------------------------------------------------------ what the file says as a whole

  /** `Fault` is a look behind the end. */
  datatype Outcome = Done(found: Found, of: int) | NoHeader | Fault

  predicate Has(f: seq<Byte>, of: int, n: nat) {
    0 <= of && of + n <= |f|
  }

  function Be32(f: seq<Byte>, of: int): Word
    requires Has(f, of, 4)
  {
    f[of + 3] as int + 0x100 * f[of + 2] as int + 0x1_0000 * f[of + 1] as int + 0x100_0000 * f[of] as int
  }

  predicate Matches(f: seq<Byte>, of: int, pat: seq<Byte>)
    requires Has(f, of, |pat|)
  {
    f[of..of + |pat|] == pat
  }

  /** What an entry changes. */
  function Taken(found: Found, tag: Word, value: Word): Found {
    if tag == THUMB_OFFSET then found.(thumbOf := Wrap(found.exifStart + value))
    else if tag == THUMB_SIZE then found.(thumbSize := value)
    else if tag == SUB_IFD then found.(subifd := value)
    else found
  }

  /** One directory entry: tag, format, count, value. */
  function Entry(f: seq<Byte>, of: int, found: Found): Found
    requires Has(f, of, 12)
  {
    Taken(found, U16(f, of), U32(f, of + 8))
  }

  function Entries(f: seq<Byte>, of: int, n: nat, found: Found): (r: Outcome)
    ensures r.Done? ==> r.of == of + 12 * n
    decreases n
  {
    if n == 0 then Done(found, of)
    else if !Has(f, of, 12) then Fault
    else Entries(f, of + 12, n - 1, Entry(f, of, found))
  }

  /** A directory: a count and so many entries of 12 bytes. */
  function Ifd(f: seq<Byte>, of: int, found: Found): (r: Outcome)
    ensures r.Done? ==> Has(f, of, 2) && r.of == of + 2 + 12 * U16(f, of)
  {
    if !Has(f, of, 2) then Fault else Entries(f, of + 2, U16(f, of), found)
  }

  /** The value of the last entry with that tag, or `otherwise`. */
  function LastValue(f: seq<Byte>, of: int, n: nat, tag: Word, otherwise: Word): Word
    requires Has(f, of, 12 * n)
    decreases n
  {
    if n == 0 then otherwise
    else if U16(f, of + 12 * (n - 1)) == tag then U32(f, of + 12 * (n - 1) + 8)
    else LastValue(f, of, n - 1, tag, otherwise)
  }

  predicate HasTag(f: seq<Byte>, of: int, n: nat, tag: Word)
    requires Has(f, of, 12 * n)
    decreases n
  {
    n > 0 && (U16(f, of + 12 * (n - 1)) == tag || HasTag(f, of, n - 1, tag))
  }

  /** Of several entries with the same tag the last one counts; the others are passed over. */
  lemma {:induction false} EntriesFind(f: seq<Byte>, of: int, n: nat, found: Found)
    requires 0 <= of && Entries(f, of, n, found).Done?
    ensures Has(f, of, 12 * n) || n == 0
    ensures n > 0 ==>
              var r := Entries(f, of, n, found).found;
              && r.exifStart == found.exifStart
              && r.thumbOf == (if HasTag(f, of, n, THUMB_OFFSET)
                               then Wrap(found.exifStart + LastValue(f, of, n, THUMB_OFFSET, 0)) else found.thumbOf)
              && r.thumbSize == LastValue(f, of, n, THUMB_SIZE, found.thumbSize)
              && r.subifd == LastValue(f, of, n, SUB_IFD, found.subifd)
    decreases n
  {
    if n > 0 {
      EntriesFind(f, of + 12, n - 1, Entry(f, of, found));
      LastOfFirst(f, of, n, THUMB_OFFSET, 0);
      HasOfFirst(f, of, n, THUMB_OFFSET);
      LastAny(f, of + 12, n - 1, THUMB_OFFSET, U32(f, of + 8), 0);
      LastOfFirst(f, of, n, THUMB_SIZE, found.thumbSize);
      LastOfFirst(f, of, n, SUB_IFD, found.subifd);
    }
  }

  lemma {:induction false} HasOfFirst(f: seq<Byte>, of: int, n: nat, tag: Word)
    requires n > 0 && Has(f, of, 12 * n)
    ensures HasTag(f, of, n, tag) <==> U16(f, of) == tag || HasTag(f, of + 12, n - 1, tag)
    decreases n
  {
    if n > 1 {
      HasOfFirst(f, of, n - 1, tag);
    }
  }

  lemma {:induction false} LastAny(f: seq<Byte>, of: int, n: nat, tag: Word, v: Word, w: Word)
    requires Has(f, of, 12 * n)
    ensures LastValue(f, of, n, tag, v) == if HasTag(f, of, n, tag) then LastValue(f, of, n, tag, w) else v
    decreases n
  {
    if n > 0 && U16(f, of + 12 * (n - 1)) != tag {
      LastAny(f, of, n - 1, tag, v, w);
    }
  }

  lemma {:induction false} LastOfFirst(f: seq<Byte>, of: int, n: nat, tag: Word, otherwise: Word)
    requires n > 0 && Has(f, of, 12 * n)
    ensures LastValue(f, of, n, tag, otherwise) ==
            LastValue(f, of + 12, n - 1, tag, if U16(f, of) == tag then U32(f, of + 8) else otherwise)
    decreases n
  {
    if n > 1 {
      LastOfFirst(f, of, n - 1, tag, otherwise);
    }
  }

  /** A directory whose place is given from the start of the block on. */
  function Linked(f: seq<Byte>, at: Word, found: Found): Outcome {
    Ifd(f, Wrap(found.exifStart + at), found)
  }

  /** The TIFF part: the first directory, the one linked behind it, and the one it points to. */
  function Tiff(f: seq<Byte>, of: int, found: Found): Outcome {
    if !Has(f, of, 8) then Fault else Links(f, Ifd(f, Wrap(of + 8 + U32(f, of + 4) - 8), found))
  }

  function Links(f: seq<Byte>, first: Outcome): Outcome {
    if !first.Done? then first
    else if !Has(f, first.of, 4) then Fault
    else Sub(f, Second(f, U32(f, first.of), first))
  }

  function Second(f: seq<Byte>, ifd1: Word, first: Outcome): Outcome
    requires first.Done?
  {
    if ifd1 == 0 then first else Linked(f, ifd1, first.found)
  }

  function Sub(f: seq<Byte>, second: Outcome): Outcome {
    if second.Done? && second.found.subifd != 0 then Linked(f, second.found.subifd, second.found) else second
  }

  const JFIF: seq<Byte> := [0x4A, 0x46, 0x49, 0x46]
  const EXIF: seq<Byte> := [0x45, 0x78, 0x69, 0x66, 0, 0]
  const FUJI_RAW: seq<Byte> :=
    [0x46, 0x55, 0x4A, 0x49, 0x46, 0x49, 0x4C, 0x4D, 0x43, 0x43, 0x44, 0x2D, 0x52, 0x41, 0x57]

  /** The segment behind the start of the picture. */
  function Segment(f: seq<Byte>, of: int, found: Found): Outcome {
    if !Has(f, of, 8) then Fault
    else ExifBlock(f, if Matches(f, of + 4, JFIF) then Wrap(of + 4 + 0x12) else of + 4, found)
  }

  function ExifBlock(f: seq<Byte>, of: int, found: Found): Outcome {
    if !Has(f, of, 6) then Fault
    else if !Matches(f, of, EXIF) then NoHeader
    else Tiff(f, of + 6, found.(exifStart := Wrap(of + 6)))
  }

  const NOTHING := Found(0, 0, 0, 0)

  /** The whole file; a raw file holds the picture behind a header. */
  function Whole(f: seq<Byte>): Outcome {
    if !Has(f, 0, 15) then Fault
    else if !Matches(f, 0, FUJI_RAW) then Picture(f, 0)
    else if !Has(f, 0x54, 4) then Fault
    else Picture(f, Be32(f, 0x54))
  }

  function Picture(f: seq<Byte>, of: Word): Outcome {
    if !Has(f, of, 1) then Fault
    else if f[of] != 0xFF then Done(NOTHING, of)
    else if !Has(f, of + 1, 1) then Fault
    else if f[of + 1] != 0xD8 then Done(NOTHING, of)
    else Segment(f, of + 2, NOTHING)
  }

  // ------------------------------------------------------------------------------- the looks it takes

  /** What parsing does to the buffer, in order: making sure of so many bytes, and looking at `n` of them. */
  datatype Step = Need(length: Word) | Look(of: int, n: Positive)

  type Positive = n: int | n > 0 witness 1

  function PlanEntries(of: int, n: nat): seq<Step>
    decreases n
  {
    if n == 0 then [] else [Need(Wrap(of + 12)), Look(of, 12)] + PlanEntries(of + 12, n - 1)
  }

  function PlanIfd(f: seq<Byte>, of: int, found: Found): seq<Step> {
    [Look(of, 2)] + if Has(f, of, 2) then PlanEntries(of + 2, U16(f, of)) + PlanThumb(Ifd(f, of, found)) else []
  }

  function PlanThumb(r: Outcome): seq<Step> {
    if r.Done? && r.found.thumbOf != 0 && r.found.thumbSize != 0 then
      [Need(Wrap(r.found.thumbOf + r.found.thumbSize))]
    else []
  }

  function PlanLinked(f: seq<Byte>, at: Word, found: Found): seq<Step> {
    [Need(Wrap(found.exifStart + at))] + PlanIfd(f, Wrap(found.exifStart + at), found)
  }

  function PlanTiff(f: seq<Byte>, of: int, found: Found): seq<Step> {
    [Look(of, 8)] +
    if Has(f, of, 8) then
      var at := Wrap(of + 8 + U32(f, of + 4) - 8);
      PlanIfd(f, at, found) + PlanLinks(f, Ifd(f, at, found))
    else []
  }

  function PlanLinks(f: seq<Byte>, first: Outcome): seq<Step> {
    if !first.Done? then []
    else [Look(first.of, 4)] + if Has(f, first.of, 4) then PlanSecond(f, U32(f, first.of), first) else []
  }

  function PlanSecond(f: seq<Byte>, ifd1: Word, first: Outcome): seq<Step>
    requires first.Done?
  {
    (if ifd1 == 0 then [] else PlanLinked(f, ifd1, first.found)) + PlanSub(f, Second(f, ifd1, first))
  }

  function PlanSub(f: seq<Byte>, second: Outcome): seq<Step> {
    if second.Done? && second.found.subifd != 0 then PlanLinked(f, second.found.subifd, second.found) else []
  }

  function PlanSegment(f: seq<Byte>, of: int, found: Found): seq<Step> {
    [Look(of, 8)] +
    if Has(f, of, 8) then PlanBlock(f, if Matches(f, of + 4, JFIF) then Wrap(of + 4 + 0x12) else of + 4, found)
    else []
  }

  function PlanBlock(f: seq<Byte>, of: int, found: Found): seq<Step> {
    [Look(of, 6)] +
    if Has(f, of, 6) && Matches(f, of, EXIF) then PlanTiff(f, of + 6, found.(exifStart := Wrap(of + 6))) else []
  }

  function PlanPicture(f: seq<Byte>, of: Word): seq<Step> {
    [Look(of, 1)] +
    if Has(f, of, 1) && f[of] == 0xFF then
      [Look(of + 1, 1)] + if Has(f, of + 1, 1) && f[of + 1] == 0xD8 then PlanSegment(f, of + 2, NOTHING) else []
    else []
  }

  /** The steps that a file as a whole gives rise to. */
  function Plan(f: seq<Byte>): seq<Step> {
    [Need(100)] + ([Look(0, 15)] + if Has(f, 0, 15) then PlanHead(f) else [])
  }

  function PlanHead(f: seq<Byte>): seq<Step>
    requires Has(f, 0, 15)
  {
    if !Matches(f, 0, FUJI_RAW) then PlanPicture(f, 0)
    else
      [Look(0x54, 4)] + if Has(f, 0x54, 4) then [Need(Be32(f, 0x54))] + PlanPicture(f, Be32(f, 0x54)) else []
  }

  // ------------------------------------------------------------------------------ the buffer and memory

  /** What memory holds at offsets that were not fetched, for each length of the buffer. */
  type Stray = (nat, int) -> Byte

  /** What a request for more of the file brings: nothing, or so many of the bytes asked for. */
  datatype Reply = Refused | Sent(n: nat)

  datatype World = World(file: seq<Byte>, canGrow: bool, stray: Stray)

  /** The buffer, which of its bytes were fetched, the replies to come (behind the last, all that is asked
      for is sent), and whether all bytes looked at so far were fetched. */
  datatype Store = Store(buf: seq<Byte>, there: seq<bool>, replies: seq<Reply>, inside: bool)

  function FirstChunk(file: seq<Byte>, n: nat, replies: seq<Reply>): Store
    requires n <= |file|
  {
    Store(file[..n], seq(n, _ => true), replies, true)
  }

  predicate Grants(replies: seq<Reply>) {
    replies == [] || replies[0].Sent?
  }

  function Rest(replies: seq<Reply>): seq<Reply> {
    if replies == [] then [] else replies[1..]
  }

  /** Where the bytes that a reply adds to a buffer end. */
  function Upto(size: nat, from: nat, length: nat, replies: seq<Reply>): (n: nat)
    requires Grants(replies)
    ensures n > from ==> n <= size && n <= length
  {
    var max := if length > from then length - from else 0;
    from + Download.Got(size, from, max, if replies == [] then max else replies[0].n)
  }

  /** The buffer at its new length. */
  function Resized(file: seq<Byte>, stray: Stray, buf: seq<Byte>, length: nat, upto: nat): seq<Byte>
    requires upto <= |buf| || upto <= |file|
  {
    seq(length, i requires 0 <= i < length =>
      if i < |buf| then buf[i] else if i < upto then file[i] else stray(length, i))
  }

  function ThereThen(there: seq<bool>, length: nat, upto: nat): seq<bool> {
    seq(length, i requires 0 <= i < length => if i < |there| then there[i] else i < upto)
  }

  /** The bytes in the buffer that were fetched are those of the file. */
  ghost predicate Sound(w: World, s: Store) {
    && |s.there| == |s.buf| && |w.file| < 0x1_0000_0000
    && forall i | 0 <= i < |s.buf| && s.there[i] :: i < |w.file| && s.buf[i] == w.file[i]
  }

  predicate There(s: Store, of: int, n: nat) {
    0 <= of && of + n <= |s.there| && forall i | of <= i < of + n :: s.there[i]
  }

  function Seen(s: Store, of: int, n: nat): Store {
    s.(inside := s.inside && There(s, of, n))
  }

  datatype Grown = Grown(ok: bool, store: Store)

  /** Making sure of `n` bytes; somewhat more is asked for, with a length that may wrap around. */
  function Grow(w: World, s: Store, n: Word): (g: Grown)
    ensures g.store.inside == s.inside && (Sound(w, s) ==> Sound(w, g.store))
    ensures g.ok && n + 1000 < 0x1_0000_0000 ==> n <= |g.store.buf|
  {
    if n <= |s.buf| then Grown(true, s)
    else if !w.canGrow then Grown(false, s)
    else if !Grants(s.replies) then Grown(false, s.(replies := Rest(s.replies)))
    else
      var length := Wrap(n + 1000);
      var upto := Upto(|w.file|, |s.buf|, length, s.replies);
      Grown(true, Store(Resized(w.file, w.stray, s.buf, length, upto), ThereThen(s.there, length, upto),
                        Rest(s.replies), s.inside))
  }

  function At(stray: Stray, buf: seq<Byte>, of: int): Byte {
    if 0 <= of < |buf| then buf[of] else stray(|buf|, of)
  }

  function Half(stray: Stray, buf: seq<Byte>, of: int): (w: Word)
    ensures w < 0x1_0000
  {
    At(stray, buf, of) as int + 0x100 * At(stray, buf, of + 1) as int
  }

  function Full(stray: Stray, buf: seq<Byte>, of: int): Word {
    Half(stray, buf, of) + 0x1_0000 * Half(stray, buf, of + 2)
  }

  function FullBe(stray: Stray, buf: seq<Byte>, of: int): Word {
    At(stray, buf, of + 3) as int + 0x100 * At(stray, buf, of + 2) as int
      + 0x1_0000 * At(stray, buf, of + 1) as int + 0x100_0000 * At(stray, buf, of) as int
  }

  function Bytes(stray: Stray, buf: seq<Byte>, of: int, n: nat): seq<Byte> {
    seq<Byte>(n, i requires 0 <= i < n => At(stray, buf, of + i))
  }

  /** Fetched bytes lie in the file, and their offsets do not wrap. */
  lemma {:induction false} SoundBound(w: World, s: Store, of: int, n: nat)
    requires Sound(w, s) && There(s, of, n) && n > 0
    ensures Has(w.file, of, n) && of + n < 0x1_0000_0000 && Wrap(of + n) == of + n
    ensures Sound(w, Seen(s, of, n)) && Seen(s, of, n) == s
  {
    assert s.there[of + n - 1];
  }

  /** What is seen of bytes that were fetched is what the file says. */
  lemma {:induction false} SameInFile(w: World, s: Store, of: int)
    requires Sound(w, s)
    ensures There(s, of, 1) ==> Has(w.file, of, 1) && At(w.stray, s.buf, of) == w.file[of]
    ensures There(s, of, 2) ==> Has(w.file, of, 2) && Half(w.stray, s.buf, of) == U16(w.file, of)
    ensures There(s, of, 4) ==>
              && Has(w.file, of, 4) && Full(w.stray, s.buf, of) == U32(w.file, of)
              && FullBe(w.stray, s.buf, of) == Be32(w.file, of)
  {
    if There(s, of, 1) { SoundBound(w, s, of, 1); }
    if There(s, of, 2) { SoundBound(w, s, of, 2); }
    if There(s, of, 4) { SoundBound(w, s, of, 4); }
  }

  lemma {:induction false} MatchInFile(w: World, s: Store, of: int, pat: seq<Byte>)
    requires Sound(w, s) && There(s, of, |pat|) && pat != []
    ensures Has(w.file, of, |pat|)
    ensures (Bytes(w.stray, s.buf, of, |pat|) == pat) == Matches(w.file, of, pat)
  {
    SoundBound(w, s, of, |pat|);
    var seen := Bytes(w.stray, s.buf, of, |pat|);
    forall i | 0 <= i < |pat|
      ensures seen[i] == w.file[of + i]
    {
      assert s.there[of + i] && s.buf[of + i] == w.file[of + i];
      assert seen[i] == At(w.stray, s.buf, of + i);
    }
    assert seen == w.file[of..of + |pat|];
  }

  lemma {:induction false} EntryInFile(w: World, s: Store, of: int, found: Found)
    requires Sound(w, s) && There(s, of, 12)
    ensures Has(w.file, of, 12)
    ensures Taken(found, Half(w.stray, s.buf, of), Full(w.stray, s.buf, Wrap(of + 8))) == Entry(w.file, of, found)
  {
    hide Taken;
    SoundBound(w, s, of, 12);
    SameInFile(w, s, of);
    SameInFile(w, s, of + 8);
  }

  // --------------------------------------------------------------------------- runs on a growing buffer

  /** The code has one return value for a header that is missing and for a fetch that failed. */
  datatype Result = Success | NotFound | GaveUp

  datatype Run = Run(result: Result, of: Word, found: Found, store: Store)

  /** A thumbnail that does not reach behind the range of its offsets lies within the buffer. */
  predicate WindowFits(found: Found, s: Store) {
    (found.thumbOf != 0 && found.thumbSize != 0 && found.thumbOf + found.thumbSize + 1000 < 0x1_0000_0000) ==>
      found.thumbOf + found.thumbSize <= |s.buf|
  }

  function RunEntries(w: World, of: Word, n: nat, found: Found, s: Store): (r: Run)
    ensures r.result != NotFound && (!s.inside ==> !r.store.inside) && (Sound(w, s) ==> Sound(w, r.store))
    decreases n
  {
    if n == 0 then Run(Success, of, found, s)
    else
      var g := Grow(w, s, Wrap(of + 12));
      if !g.ok then Run(GaveUp, of, found, g.store)
      else
        var buf := g.store.buf;
        RunEntries(w, Wrap(of + 12), n - 1, Taken(found, Half(w.stray, buf, of), Full(w.stray, buf, Wrap(of + 8))),
                   Seen(g.store, of, 12))
  }

  function RunIfd(w: World, of: Word, found: Found, s: Store): (r: Run)
    ensures r.result != NotFound && (!s.inside ==> !r.store.inside) && (Sound(w, s) ==> Sound(w, r.store))
    ensures r.result == Success ==> WindowFits(r.found, r.store)
  {
    RunThumb(w, RunEntries(w, Wrap(of + 2), Half(w.stray, s.buf, of), found, Seen(s, of, 2)))
  }

  function RunThumb(w: World, r: Run): (t: Run)
    ensures r.result != NotFound ==> t.result != NotFound
    ensures t.store.inside == r.store.inside && (Sound(w, r.store) ==> Sound(w, t.store))
    ensures t.result == Success ==> WindowFits(t.found, t.store)
  {
    if r.result == Success && r.found.thumbOf != 0 && r.found.thumbSize != 0 then
      var g := Grow(w, r.store, Wrap(r.found.thumbOf + r.found.thumbSize));
      Run(if g.ok then Success else GaveUp, r.of, r.found, g.store)
    else r
  }

  function RunLinked(w: World, at: Word, found: Found, s: Store): (r: Run)
    ensures r.result != NotFound && (!s.inside ==> !r.store.inside) && (Sound(w, s) ==> Sound(w, r.store))
    ensures r.result == Success ==> WindowFits(r.found, r.store)
  {
    var of := Wrap(found.exifStart + at);
    var g := Grow(w, s, of);
    if g.ok then RunIfd(w, of, found, g.store) else Run(GaveUp, of, found, g.store)
  }

  function RunTiff(w: World, of: Word, found: Found, s: Store): (r: Run)
    ensures r.result != NotFound && (!s.inside ==> !r.store.inside)
    ensures r.result == Success ==> WindowFits(r.found, r.store)
  {
    RunLinks(w, RunIfd(w, Wrap(of + 8 + Full(w.stray, s.buf, Wrap(of + 4)) - 8), found, Seen(s, of, 8)))
  }

  function RunLinks(w: World, first: Run): (r: Run)
    requires first.result != NotFound && (first.result == Success ==> WindowFits(first.found, first.store))
    ensures r.result != NotFound && (!first.store.inside ==> !r.store.inside)
    ensures r.result == Success ==> WindowFits(r.found, r.store)
  {
    if first.result != Success then first
    else
      var seen := Seen(first.store, first.of, 4);
      RunSub(w, RunSecond(w, Full(w.stray, first.store.buf, first.of), first.(store := seen)))
  }

  function RunSecond(w: World, ifd1: Word, first: Run): (r: Run)
    requires first.result == Success && WindowFits(first.found, first.store)
    ensures r.result != NotFound && (!first.store.inside ==> !r.store.inside)
    ensures Sound(w, first.store) ==> Sound(w, r.store)
    ensures r.result == Success ==> WindowFits(r.found, r.store)
  {
    if ifd1 == 0 then first else RunLinked(w, ifd1, first.found, first.store)
  }

  function RunSub(w: World, second: Run): (r: Run)
    requires second.result != NotFound && (second.result == Success ==> WindowFits(second.found, second.store))
    ensures r.result != NotFound && (!second.store.inside ==> !r.store.inside)
    ensures r.result == Success ==> WindowFits(r.found, r.store)
  {
    if second.result == Success && second.found.subifd != 0 then
      RunLinked(w, second.found.subifd, second.found, second.store)
    else second
  }

  function RunSegment(w: World, of: Word, found: Found, s: Store): (r: Run)
    ensures !s.inside ==> !r.store.inside
    ensures r.result == Success ==> WindowFits(r.found, r.store)
  {
    var of1 := Wrap(of + 4);
    RunBlock(w, if Bytes(w.stray, s.buf, of1, 4) == JFIF then Wrap(of1 + 0x12) else of1, found, Seen(s, of, 8))
  }

  function RunBlock(w: World, of: Word, found: Found, s: Store): (r: Run)
    ensures !s.inside ==> !r.store.inside
    ensures r.result == Success ==> WindowFits(r.found, r.store)
  {
    var seen := Seen(s, of, 6);
    if Bytes(w.stray, s.buf, of, 6) == EXIF then
      RunTiff(w, Wrap(of + 6), found.(exifStart := Wrap(of + 6)), seen)
    else Run(NotFound, of, found, seen)
  }

  function RunPicture(w: World, of: Word, s: Store): (r: Run)
    ensures !s.inside ==> !r.store.inside
    ensures r.result == Success ==> WindowFits(r.found, r.store)
  {
    var seen := Seen(s, of, 1);
    if At(w.stray, s.buf, of) != 0xFF then Run(Success, of, NOTHING, seen)
    else
      var both := Seen(seen, Wrap(of + 1), 1);
      if At(w.stray, s.buf, Wrap(of + 1)) != 0xD8 then Run(Success, of, NOTHING, both)
      else RunSegment(w, Wrap(of + 2), NOTHING, both)
  }

  function RunHead(w: World, s: Store): (r: Run)
    ensures !s.inside ==> !r.store.inside
    ensures r.result == Success ==> WindowFits(r.found, r.store)
  {
    if Bytes(w.stray, s.buf, 0, 15) != FUJI_RAW then RunPicture(w, 0, s)
    else
      var of := FullBe(w.stray, s.buf, 0x54);
      var g := Grow(w, Seen(s, 0x54, 4), of);
      if g.ok then RunPicture(w, of, g.store) else Run(GaveUp, 0x54, NOTHING, g.store)
  }

  /** Parsing from the buffer at hand on. */
  function RunRaw(w: World, s: Store): (r: Run)
    ensures !s.inside ==> !r.store.inside
    ensures r.result == Success ==> WindowFits(r.found, r.store)
  {
    var g := Grow(w, s, 100);
    if g.ok then RunHead(w, Seen(g.store, 0, 15)) else Run(GaveUp, 0, NOTHING, g.store)
  }

  // ------------------------------------------------------------------------ runs follow the file's plan

  /** The plan carried out on a growing buffer, up to a fetch that fails. */
  function Walk(w: World, s: Store, plan: seq<Step>): (g: Grown)
    ensures !s.inside ==> !g.store.inside
    ensures Sound(w, s) ==> Sound(w, g.store)
    decreases |plan|
  {
    if plan == [] then Grown(true, s)
    else
      match plan[0]
      case Look(of, n) => Walk(w, Seen(s, of, n), plan[1..])
      case Need(n) =>
        var g := Grow(w, s, n);
        if g.ok then Walk(w, g.store, plan[1..]) else g
  }

  lemma {:induction false} WalkNone(w: World, s: Store)
    ensures Walk(w, s, []) == Grown(true, s)
  {
  }

  lemma {:induction false} WalkOne(w: World, s: Store, step: Step, plan: seq<Step>)
    ensures Walk(w, s, [step] + plan) ==
            match step
            case Look(of, n) => Walk(w, Seen(s, of, n), plan)
            case Need(n) => var g := Grow(w, s, n); if g.ok then Walk(w, g.store, plan) else g
  {
    hide Grow, Seen;
    assert ([step] + plan)[1..] == plan;
  }

  lemma {:induction false} WalkOn(w: World, s: Store, p: seq<Step>, q: seq<Step>)
    ensures Walk(w, s, p + q) == var g := Walk(w, s, p); if g.ok then Walk(w, g.store, q) else g
    decreases |p|
  {
    hide Grow, Seen;
    if p == [] {
      assert p + q == q;
    } else {
      assert (p + q)[1..] == p[1..] + q;
      match p[0]
      case Look(of, n) => WalkOn(w, Seen(s, of, n), p[1..], q);
      case Need(n) => WalkOn(w, Grow(w, s, n).store, p[1..], q);
    }
  }

  /** A run that looks at fetched bytes only comes to what the file says, unless a fetch fails; and whether
      it does is a matter of the plan. */
  ghost predicate Follows(g: Grown, r: Run, whole: Outcome) {
    && r.store.inside == g.store.inside
    && (r.store.inside ==>
          && r.store == g.store
          && (!g.ok ==> r.result == GaveUp)
          && (g.ok ==>
                match whole
                case Done(found, of) => r.result == Success && r.found == found && r.of == of
                case NoHeader => r.result == NotFound
                case Fault => false))
  }

  lemma {:induction false} FollowEntries(w: World, of: Word, n: nat, found: Found, s: Store)
    requires Sound(w, s) && s.inside
    ensures Follows(Walk(w, s, PlanEntries(of, n)), RunEntries(w, of, n, found, s), Entries(w.file, of, n, found))
    decreases n
  {
    hide Grow, Taken, Entry, Sound, There, Half, Full;
    if n > 0 {
      var rest := PlanEntries(of + 12, n - 1);
      assert PlanEntries(of, n) == [Need(Wrap(of + 12))] + ([Look(of, 12)] + rest);
      WalkOne(w, s, Need(Wrap(of + 12)), [Look(of, 12)] + rest);
      var g := Grow(w, s, Wrap(of + 12));
      if g.ok {
        WalkOne(w, g.store, Look(of, 12), rest);
        if There(g.store, of, 12) {
          EntryInFile(w, g.store, of, found);
          SoundBound(w, g.store, of, 12);
          FollowEntries(w, of + 12, n - 1, Entry(w.file, of, found), Seen(g.store, of, 12));
        }
      }
    }
  }

  lemma {:induction false} FollowIfd(w: World, of: Word, found: Found, s: Store)
    requires Sound(w, s) && s.inside
    ensures Follows(Walk(w, s, PlanIfd(w.file, of, found)), RunIfd(w, of, found, s), Ifd(w.file, of, found))
  {
    hide Grow, Sound, There, Half, Entries, RunEntries, PlanEntries, Walk, WindowFits;
    var seen := Seen(s, of, 2);
    if There(s, of, 2) {
      SoundBound(w, s, of, 2);
      SameInFile(w, s, of);
      var n := U16(w.file, of);
      var entries, thumb := PlanEntries(of + 2, n), PlanThumb(Ifd(w.file, of, found));
      assert PlanIfd(w.file, of, found) == [Look(of, 2)] + (entries + thumb);
      WalkOne(w, s, Look(of, 2), entries + thumb);
      WalkOn(w, seen, entries, thumb);
      FollowEntries(w, of + 2, n, found, seen);
      FollowThumb(w, Walk(w, seen, entries), RunEntries(w, of + 2, n, found, seen), Ifd(w.file, of, found));
    } else {
      WalkOne(w, s, Look(of, 2), PlanIfd(w.file, of, found)[1..]);
      assert PlanIfd(w.file, of, found) == [Look(of, 2)] + PlanIfd(w.file, of, found)[1..];
    }
  }

  lemma {:induction false} FollowThumb(w: World, g: Grown, r: Run, whole: Outcome)
    requires Follows(g, r, whole) && r.result != NotFound
    ensures Follows(if g.ok then Walk(w, g.store, PlanThumb(whole)) else g, RunThumb(w, r), whole)
  {
    hide Grow, Sound, WindowFits;
    var plan := PlanThumb(whole);
    if plan != [] {
      WalkOne(w, g.store, plan[0], []);
      assert [plan[0]] + [] == plan;
    }
  }

  lemma {:induction false} FollowLinked(w: World, at: Word, found: Found, s: Store)
    requires Sound(w, s) && s.inside
    ensures Follows(Walk(w, s, PlanLinked(w.file, at, found)), RunLinked(w, at, found, s), Linked(w.file, at, found))
  {
    hide Grow, Sound, Ifd, RunIfd, PlanIfd, Walk, WindowFits;
    var of := Wrap(found.exifStart + at);
    WalkOne(w, s, Need(of), PlanIfd(w.file, of, found));
    if Grow(w, s, of).ok {
      FollowIfd(w, of, found, Grow(w, s, of).store);
    }
  }

  /** Going on to a further directory. */
  lemma {:induction false} FollowSub(w: World, g: Grown, r: Run, second: Outcome)
    requires Follows(g, r, second) && Sound(w, r.store)
    requires r.result != NotFound && (r.result == Success ==> WindowFits(r.found, r.store))
    ensures Follows(if g.ok then Walk(w, g.store, PlanSub(w.file, second)) else g, RunSub(w, r), Sub(w.file, second))
  {
    hide Grow, Sound, Linked, RunLinked, PlanLinked, WindowFits;
    if g.ok && g.store.inside && second.Done? && second.found.subifd != 0 {
      FollowLinked(w, second.found.subifd, second.found, g.store);
    }
  }

  lemma {:induction false} FollowSecond(w: World, ifd1: Word, first: Run, whole: Outcome)
    requires first.result == Success && WindowFits(first.found, first.store)
    requires first.store.inside && Sound(w, first.store) && whole == Done(first.found, first.of)
    ensures Follows(Walk(w, first.store, PlanSecond(w.file, ifd1, whole)), RunSub(w, RunSecond(w, ifd1, first)),
                    Sub(w.file, Second(w.file, ifd1, whole)))
  {
    hide Grow, Sound, Linked, RunLinked, PlanLinked, PlanSub, RunSub, Sub, Walk, WindowFits;
    var plan := if ifd1 == 0 then [] else PlanLinked(w.file, ifd1, first.found);
    var g := Walk(w, first.store, plan);
    WalkOn(w, first.store, plan, PlanSub(w.file, Second(w.file, ifd1, whole)));
    if ifd1 == 0 {
      WalkNone(w, first.store);
    } else {
      FollowLinked(w, ifd1, first.found, first.store);
    }
    FollowSub(w, g, RunSecond(w, ifd1, first), Second(w.file, ifd1, whole));
  }

  lemma {:induction false} FollowLinks(w: World, g: Grown, first: Run, whole: Outcome)
    requires Follows(g, first, whole) && Sound(w, first.store)
    requires first.result != NotFound && (first.result == Success ==> WindowFits(first.found, first.store))
    ensures Follows(if g.ok then Walk(w, g.store, PlanLinks(w.file, whole)) else g, RunLinks(w, first),
                    Links(w.file, whole))
  {
    hide Grow, Sound, There, Full, PlanSecond, RunSecond, RunSub, Sub, Second, Walk, WindowFits;
    if g.ok && g.store.inside {
      var s, of := first.store, first.of;
      var rest := if Has(w.file, of, 4) then PlanSecond(w.file, U32(w.file, of), whole) else [];
      WalkOne(w, s, Look(of, 4), rest);
      if There(s, of, 4) {
        SoundBound(w, s, of, 4);
        SameInFile(w, s, of);
        FollowSecond(w, U32(w.file, of), first, whole);
      }
    }
  }

  lemma {:induction false} FollowTiff(w: World, of: Word, found: Found, s: Store)
    requires Sound(w, s) && s.inside
    ensures Follows(Walk(w, s, PlanTiff(w.file, of, found)), RunTiff(w, of, found, s), Tiff(w.file, of, found))
  {
    hide Grow, Sound, There, Full, U32, Ifd, RunIfd, PlanIfd, PlanLinks, RunLinks, Links, Walk, WindowFits;
    if There(s, of, 8) {
      SoundBound(w, s, of, 8);
      ThereWithin(s, of, 8, of + 4, 4);
      SameInFile(w, s, of + 4);
      var at := Wrap(of + 8 + U32(w.file, of + 4) - 8);
      var links := PlanLinks(w.file, Ifd(w.file, at, found));
      WalkOne(w, s, Look(of, 8), PlanIfd(w.file, at, found) + links);
      WalkOn(w, s, PlanIfd(w.file, at, found), links);
      FollowIfd(w, at, found, s);
      FollowLinks(w, Walk(w, s, PlanIfd(w.file, at, found)), RunIfd(w, at, found, s), Ifd(w.file, at, found));
    } else {
      WalkOff(w, s, of, 8, PlanTiff(w.file, of, found));
    }
  }

  lemma {:induction false} ThereWithin(s: Store, of: int, n: nat, from: int, m: nat)
    requires There(s, of, n) && of <= from && from + m <= of + n
    ensures There(s, from, m)
  {
  }

  /** A look at a byte that was not fetched is not undone. */
  lemma {:induction false} WalkOff(w: World, s: Store, of: int, n: Positive, plan: seq<Step>)
    requires !There(s, of, n) && plan != [] && plan[0] == Look(of, n)
    ensures !Walk(w, s, plan).store.inside
  {
  }

  lemma {:induction false} FollowBlock(w: World, of: Word, found: Found, s: Store)
    requires Sound(w, s) && s.inside
    ensures Follows(Walk(w, s, PlanBlock(w.file, of, found)), RunBlock(w, of, found, s), ExifBlock(w.file, of, found))
  {
    hide Sound, There, Bytes, Matches, Tiff, PlanTiff, RunTiff, WindowFits;
    if There(s, of, 6) {
      SoundBound(w, s, of, 6);
      MatchInFile(w, s, of, EXIF);
      var found1 := found.(exifStart := Wrap(of + 6));
      WalkOne(w, s, Look(of, 6), if Matches(w.file, of, EXIF) then PlanTiff(w.file, of + 6, found1) else []);
      FollowTiff(w, Wrap(of + 6), found1, s);
    } else {
      WalkOff(w, s, of, 6, PlanBlock(w.file, of, found));
    }
  }

  lemma {:induction false} FollowSegment(w: World, of: Word, found: Found, s: Store)
    requires Sound(w, s) && s.inside
    ensures Follows(Walk(w, s, PlanSegment(w.file, of, found)), RunSegment(w, of, found, s),
                    Segment(w.file, of, found))
  {
    hide Sound, There, Bytes, Matches, ExifBlock, PlanBlock, RunBlock, WindowFits;
    if There(s, of, 8) {
      SoundBound(w, s, of, 8);
      ThereWithin(s, of, 8, of + 4, 4);
      MatchInFile(w, s, of + 4, JFIF);
      var of1 := if Matches(w.file, of + 4, JFIF) then Wrap(of + 4 + 0x12) else of + 4;
      WalkOne(w, s, Look(of, 8), PlanBlock(w.file, of1, found));
      FollowBlock(w, of1, found, s);
    } else {
      WalkOff(w, s, of, 8, PlanSegment(w.file, of, found));
    }
  }

  lemma {:induction false} FollowPicture(w: World, of: Word, s: Store)
    requires Sound(w, s) && s.inside
    ensures Follows(Walk(w, s, PlanPicture(w.file, of)), RunPicture(w, of, s), Picture(w.file, of))
  {
    hide Sound, There, At, Segment, PlanSegment, RunSegment, WindowFits;
    if There(s, of, 1) {
      SoundBound(w, s, of, 1);
      SameInFile(w, s, of);
      if w.file[of] != 0xFF {
        WalkOne(w, s, Look(of, 1), []);
      } else {
        FollowMark(w, of, s);
      }
    } else {
      WalkOff(w, s, of, 1, PlanPicture(w.file, of));
    }
  }

  lemma {:induction false} FollowMark(w: World, of: Word, s: Store)
    requires Sound(w, s) && s.inside && There(s, of, 1) && Has(w.file, of, 1) && w.file[of] == 0xFF
    ensures Follows(Walk(w, s, PlanPicture(w.file, of)), RunPicture(w, of, s), Picture(w.file, of))
  {
    hide Sound, There, At, Segment, PlanSegment, RunSegment, WindowFits, Walk;
    SoundBound(w, s, of, 1);
    SameInFile(w, s, of);
    var rest := if Has(w.file, of + 1, 1) && w.file[of + 1] == 0xD8 then PlanSegment(w.file, of + 2, NOTHING) else [];
    WalkOne(w, s, Look(of, 1), [Look(of + 1, 1)] + rest);
    WalkOne(w, s, Look(of + 1, 1), rest);
    if There(s, of + 1, 1) {
      SoundBound(w, s, of + 1, 1);
      SameInFile(w, s, of + 1);
      FollowSegment(w, Wrap(of + 2), NOTHING, s);
      WalkNone(w, s);
    }
  }

  lemma {:induction false} FollowHead(w: World, s: Store)
    requires Sound(w, s) && s.inside && There(s, 0, 15)
    ensures Has(w.file, 0, 15) && Follows(Walk(w, s, PlanHead(w.file)), RunHead(w, s), Whole(w.file))
  {
    hide Sound, There, Bytes, Matches, FullBe, Be32, Grow, Picture, PlanPicture, RunPicture, WindowFits, Walk;
    SoundBound(w, s, 0, 15);
    MatchInFile(w, s, 0, FUJI_RAW);
    if !Matches(w.file, 0, FUJI_RAW) {
      FollowPicture(w, 0, s);
    } else if There(s, 0x54, 4) {
      SoundBound(w, s, 0x54, 4);
      SameInFile(w, s, 0x54);
      var of := Be32(w.file, 0x54);
      WalkOne(w, s, Look(0x54, 4), [Need(of)] + PlanPicture(w.file, of));
      WalkOne(w, s, Need(of), PlanPicture(w.file, of));
      if Grow(w, s, of).ok {
        FollowPicture(w, of, Grow(w, s, of).store);
      }
    } else {
      WalkOff(w, s, 0x54, 4, PlanHead(w.file));
    }
  }

  /** A run looks at fetched bytes only if and only if the file's own plan does, carried out with the same
      replies.  Then it gives up exactly if a fetch of the plan fails, and otherwise gives what the file as
      a whole says; and it leaves buffer and replies as the plan does. */
  lemma {:induction false} FollowRaw(w: World, n: nat, replies: seq<Reply>)
    requires n <= |w.file| < 0x1_0000_0000
    ensures var s := FirstChunk(w.file, n, replies);
            Follows(Walk(w, s, Plan(w.file)), RunRaw(w, s), Whole(w.file))
  {
    hide Grow, Walk, RunHead, PlanHead, Whole, WindowFits, There;
    var s := FirstChunk(w.file, n, replies);
    var rest := if Has(w.file, 0, 15) then PlanHead(w.file) else [];
    WalkOne(w, s, Need(100), [Look(0, 15)] + rest);
    var g := Grow(w, s, 100);
    if g.ok {
      WalkOne(w, g.store, Look(0, 15), rest);
      if There(g.store, 0, 15) {
        SoundBound(w, g.store, 0, 15);
        FollowHead(w, g.store);
      }
    }
  }

  // ----------------------------------------------------------------------------- when all looks lie inside

  /** The length of the buffer behind a plan whose fetches all succeed. */
  function LengthAfter(plan: seq<Step>, length: nat): nat {
    if plan == [] then length
    else
      match plan[0]
      case Look(_, _) => LengthAfter(plan[1..], length)
      case Need(n) => LengthAfter(plan[1..], if n > length then Wrap(n + 1000) else length)
  }

  /** Every look lies within what was asked for before it, and within the file. */
  predicate Fits(plan: seq<Step>, length: nat, size: nat) {
    plan == [] ||
    match plan[0]
    case Look(of, n) => 0 <= of && of + n <= length && of + n <= size && Fits(plan[1..], length, size)
    case Need(n) => Fits(plan[1..], if n > length then Wrap(n + 1000) else length, size)
  }

  /** The buffer holds as much of the file as its length has room for. */
  ghost predicate AllThere(w: World, s: Store) {
    |s.there| == |s.buf| && forall i | 0 <= i < |s.buf| :: s.there[i] <==> i < |w.file|
  }

  lemma {:induction false} GrowGranted(w: World, s: Store, n: Word)
    requires w.canGrow && s.replies == [] && AllThere(w, s)
    ensures var g := Grow(w, s, n);
            && g.ok && g.store.replies == [] && AllThere(w, g.store)
            && |g.store.buf| == if n > |s.buf| then Wrap(n + 1000) else |s.buf|
  {
  }

  lemma {:induction false} ThereIsWithin(w: World, s: Store, of: int, n: nat)
    requires AllThere(w, s) && n > 0
    ensures There(s, of, n) <==> 0 <= of && of + n <= |s.buf| && of + n <= |w.file|
  {
    if 0 <= of && of + n <= |s.buf| {
      assert s.there[of + n - 1] <==> of + n - 1 < |w.file|;
    }
  }

  /** With all fetches granted, a plan looks at fetched bytes only if and only if it fits. */
  lemma {:induction false} WalkGranted(w: World, s: Store, plan: seq<Step>)
    requires w.canGrow && s.replies == [] && AllThere(w, s)
    ensures var g := Walk(w, s, plan);
            && g.ok && (g.store.inside <==> s.inside && Fits(plan, |s.buf|, |w.file|))
            && |g.store.buf| == LengthAfter(plan, |s.buf|)
    decreases |plan|
  {
    hide Grow, There, AllThere;
    if plan != [] {
      match plan[0]
      case Look(of, n) =>
        ThereIsWithin(w, s, of, n);
        SeenKeeps(w, s, of, n);
        WalkGranted(w, Seen(s, of, n), plan[1..]);
      case Need(n) =>
        GrowGranted(w, s, n);
        GrowKeeps(w, s, n);
        WalkGranted(w, Grow(w, s, n).store, plan[1..]);
    }
  }

  lemma {:induction false} SeenKeeps(w: World, s: Store, of: int, n: nat)
    requires AllThere(w, s)
    ensures AllThere(w, Seen(s, of, n))
  {
  }

  lemma {:induction false} GrowKeeps(w: World, s: Store, n: Word)
    ensures Grow(w, s, n).store.inside == s.inside
  {
  }

  /** Whatever memory holds behind the buffer: with all fetches granted, every look of a run lies inside the
      buffer and the file if and only if the plan fits; and then the run gives what the file says. */
  lemma {:induction false} Granted(w: World, n: nat)
    requires w.canGrow && n <= |w.file| < 0x1_0000_0000
    ensures var r := RunRaw(w, FirstChunk(w.file, n, []));
            && (r.store.inside <==> Fits(Plan(w.file), n, |w.file|))
            && (r.store.inside ==>
                  && |r.store.buf| == LengthAfter(Plan(w.file), n)
                  && match Whole(w.file)
                     case Done(found, _) => r.result == Success && r.found == found
                     case NoHeader => r.result == NotFound
                     case Fault => false)
  {
    hide RunRaw, Walk, Plan, Whole, Fits, LengthAfter;
    FollowRaw(w, n, []);
    WalkGranted(w, FirstChunk(w.file, n, []), Plan(w.file));
  }

  /** Runs over one file that look at fetched bytes only and are not refused any agree, whatever parts of it
      they start from, in whatever steps they fetch the rest, and whatever memory holds. */
  lemma {:induction false} TwoRuns(w1: World, w2: World, n1: nat, n2: nat, replies1: seq<Reply>, replies2: seq<Reply>)
    requires w1.file == w2.file && n1 <= |w1.file| < 0x1_0000_0000 && n2 <= |w1.file|
    ensures var r1 := RunRaw(w1, FirstChunk(w1.file, n1, replies1));
            var r2 := RunRaw(w2, FirstChunk(w2.file, n2, replies2));
            r1.store.inside && r2.store.inside && r1.result != GaveUp && r2.result != GaveUp ==>
              r1.result == r2.result && (r1.result == Success ==> r1.found == r2.found)
  {
    hide RunRaw, Walk, Plan, Whole;
    FollowRaw(w1, n1, replies1);
    FollowRaw(w2, n2, replies2);
  }

  lemma {:induction false} NeedFits(need: Word, plan: seq<Step>, length: nat, size: nat)
    ensures Fits([Need(need)] + plan, length, size) ==
            Fits(plan, if need > length then Wrap(need + 1000) else length, size)
  {
    assert ([Need(need)] + plan)[1..] == plan;
  }

  lemma {:induction false} NoneFit(length: nat, size: nat)
    ensures Fits([], length, size)
  {
  }

  lemma {:induction false} LookFits(of: int, n: Positive, plan: seq<Step>, length: nat, size: nat)
    ensures Fits([Look(of, n)] + plan, length, size) <==>
            0 <= of && of + n <= length && of + n <= size && Fits(plan, length, size)
  {
    assert ([Look(of, n)] + plan)[1..] == plan;
  }

  /** The looks at entries have a fetch in front of them: short of the end of the range of offsets it is only
      the end of the file that they can run into. */
  lemma {:induction false} EntriesFit(of: int, n: nat, length: nat, size: nat)
    requires 0 <= of && of + 12 * n + 1000 < 0x1_0000_0000
    ensures Fits(PlanEntries(of, n), length, size) <==> n == 0 || of + 12 * n <= size
    decreases n
  {
    hide Fits;
    if n == 0 {
      NoneFit(length, size);
    } else {
      var rest := PlanEntries(of + 12, n - 1);
      var length1 := if of + 12 > length then of + 1012 else length;
      assert PlanEntries(of, n) == [Need(of + 12)] + ([Look(of, 12)] + rest);
      NeedFits(of + 12, [Look(of, 12)] + rest, length, size);
      LookFits(of, 12, rest, length1, size);
      EntriesFit(of + 12, n - 1, length1, size);
    }
  }

  // ------------------------------------------------------------------------------------ a short first chunk

  /** A JPEG file of 104 bytes whose first directory lies at 98 and is empty, with no link behind it. */
  function EmptyDirectory(): (f: seq<Byte>)
    ensures |f| == 104
  {
    [0xFF, 0xD8, 0, 0, 0, 0] + EXIF + [0, 0, 0, 0, 86, 0, 0, 0] + seq(84, _ => 0)
  }

  lemma {:induction false} EmptyDirectoryBytes()
    ensures var f := EmptyDirectory();
            && f[0] == 0xFF && f[1] == 0xD8 && !Matches(f, 0, FUJI_RAW) && !Matches(f, 6, JFIF) && Matches(f, 6, EXIF)
            && U32(f, 16) == 86 && U16(f, 98) == 0 && U32(f, 100) == 0
  {
    var f := EmptyDirectory();
    assert f[6..12] == EXIF;
    assert f[6..10][0] != JFIF[0];
    assert f[0..15][0] != FUJI_RAW[0];
  }

  lemma {:induction false} EmptyDirectoryTiff()
    ensures var f := EmptyDirectory();
            && Tiff(f, 12, Found(12, 0, 0, 0)) == Done(Found(12, 0, 0, 0), 100)
            && PlanTiff(f, 12, Found(12, 0, 0, 0)) == [Look(12, 8), Look(98, 2), Look(100, 4)]
  {
    hide EmptyDirectory, U16, U32;
    EmptyDirectoryBytes();
    var f, found := EmptyDirectory(), Found(12, 0, 0, 0);
    assert Wrap(12 + 8 + U32(f, 16) - 8) == 98;
    assert Ifd(f, 98, found) == Done(found, 100) && PlanIfd(f, 98, found) == [Look(98, 2)];
  }

  function EmptyDirectoryLooks(): seq<Step> {
    [Look(0, 15), Look(0, 1), Look(1, 1), Look(2, 8), Look(6, 6), Look(12, 8), Look(98, 2), Look(100, 4)]
  }

  lemma {:induction false} EmptyDirectoryPlan()
    ensures var f := EmptyDirectory();
            && Whole(f) == Done(Found(12, 0, 0, 0), 100)
            && Plan(f) == [Need(100)] + EmptyDirectoryLooks()
  {
    hide EmptyDirectory, Tiff, PlanTiff, Matches;
    EmptyDirectoryBytes();
    EmptyDirectoryTiff();
    var f := EmptyDirectory();
    assert Segment(f, 2, NOTHING) == Tiff(f, 12, Found(12, 0, 0, 0));
    assert PlanSegment(f, 2, NOTHING) == [Look(2, 8), Look(6, 6)] + PlanTiff(f, 12, Found(12, 0, 0, 0));
    assert PlanPicture(f, 0) == [Look(0, 1), Look(1, 1)] + PlanSegment(f, 2, NOTHING);
  }

  /** Without a fetch in between, all looks have to lie within the buffer as it is. */
  lemma {:induction false} LooksFit(plan: seq<Step>, length: nat, size: nat)
    requires forall i | 0 <= i < |plan| :: plan[i].Look?
    ensures Fits(plan, length, size) <==>
            forall i | 0 <= i < |plan| ::
              0 <= plan[i].of && plan[i].of + plan[i].n <= length && plan[i].of + plan[i].n <= size
    decreases |plan|
  {
    if plan != [] {
      var rest := plan[1..];
      LooksFit(rest, length, size);
      assert forall i | 0 < i < |plan| :: plan[i] == rest[i - 1];
      assert forall i | 0 <= i < |rest| :: rest[i] == plan[i + 1];
    }
  }

  /** A first chunk of 100 to 103 bytes is taken as enough, and the link behind the directory is looked for
      behind the buffer.  With less than that, more is fetched in time. */
  lemma {:induction false} ShortChunk(w: World, n: nat)
    requires w.canGrow && w.file == EmptyDirectory() && n <= 104
    ensures RunRaw(w, FirstChunk(w.file, n, [])).store.inside <==> n < 100 || n == 104
  {
    hide RunRaw, EmptyDirectory, EmptyDirectoryLooks, Plan, Whole, Fits;
    EmptyDirectoryPlan();
    Granted(w, n);
    NeedFits(100, EmptyDirectoryLooks(), n, 104);
    EmptyDirectoryFits(if 100 > n then 1100 else n);
  }

  lemma {:induction false} EmptyDirectoryFits(length: nat)
    ensures Fits(EmptyDirectoryLooks(), length, 104) <==> length >= 104
  {
    hide Fits;
    LooksFit(EmptyDirectoryLooks(), length, 104);
    assert EmptyDirectoryLooks()[7] == Look(100, 4);
  }

  /** Memory with a link to 104 behind the first chunk, and a directory of two entries behind the file. */
  function StrayDirectory(): Stray {
    (length, i) =>
      if length == 100 then if i == 100 then 92 else 0
      else if i == 104 || i == 107 || i == 118 || i == 119 then 2
      else if i == 106 then 1
      else if i == 114 then 88
      else if i == 126 then 4
      else 0
  }

  /** With a first chunk of 100 bytes and such memory the run succeeds, and finds a thumbnail although the
      file has none. */
  lemma {:induction false} StrayThumbnail()
    ensures var f := EmptyDirectory();
            var r := RunRaw(World(f, true, StrayDirectory()), FirstChunk(f, 100, []));
            && r.result == Success && r.found == Found(12, 0, 100, 4) && !r.store.inside
            && Whole(f) == Done(Found(12, 0, 0, 0), 100)
  {
    hide EmptyDirectory, StrayDirectory, Whole, RunRaw, RunLinks;
    var w := World(EmptyDirectory(), true, StrayDirectory());
    var s := FirstChunk(w.file, 100, []);
    EmptyDirectoryPlan();
    EmptyDirectoryRun(w, s);
    StrayLink(w, s);
  }

  /** The run up to the first directory. */
  lemma {:induction false} EmptyDirectoryRun(w: World, s: Store)
    requires w.file == EmptyDirectory() && s == FirstChunk(w.file, 100, [])
    ensures RunRaw(w, s) == RunLinks(w, Run(Success, 100, Found(12, 0, 0, 0), s))
  {
    hide EmptyDirectory, At, Bytes, Matches, RunLinks, RunSegment, There, FirstChunk, Sound, WindowFits;
    EmptyDirectoryBytes();
    ChunkSound(w, 100, []);
    ChunkThere(w, 100, [], 0, 15);
    ChunkThere(w, 100, [], 0, 1);
    ChunkThere(w, 100, [], 1, 1);
    MatchInFile(w, s, 0, FUJI_RAW);
    SameInFile(w, s, 0);
    SameInFile(w, s, 1);
    EmptySegmentRun(w, s);
    assert RunPicture(w, 0, s) == RunSegment(w, 2, NOTHING, s);
  }

  lemma {:induction false} ChunkSound(w: World, n: nat, replies: seq<Reply>)
    requires n <= |w.file| < 0x1_0000_0000
    ensures Sound(w, FirstChunk(w.file, n, replies)) && |FirstChunk(w.file, n, replies).buf| == n
  {
  }

  lemma {:induction false} ChunkThere(w: World, n: nat, replies: seq<Reply>, of: int, k: nat)
    requires n <= |w.file| && 0 <= of && of + k <= n
    ensures var s := FirstChunk(w.file, n, replies); There(s, of, k) && (s.inside ==> Seen(s, of, k) == s)
  {
  }

  lemma {:induction false} EmptySegmentRun(w: World, s: Store)
    requires w.file == EmptyDirectory() && s == FirstChunk(w.file, 100, [])
    ensures RunSegment(w, 2, NOTHING, s) == RunLinks(w, Run(Success, 100, Found(12, 0, 0, 0), s))
  {
    hide EmptyDirectory, At, Bytes, Matches, RunLinks, RunTiff, There, FirstChunk, Sound;
    EmptyDirectoryBytes();
    ChunkSound(w, 100, []);
    ChunkThere(w, 100, [], 2, 8);
    ChunkThere(w, 100, [], 6, 4);
    ChunkThere(w, 100, [], 6, 6);
    MatchInFile(w, s, 6, JFIF);
    MatchInFile(w, s, 6, EXIF);
    EmptyTiffRun(w, s);
    assert RunBlock(w, 6, NOTHING, s) == RunTiff(w, 12, Found(12, 0, 0, 0), s);
  }

  lemma {:induction false} EmptyTiffRun(w: World, s: Store)
    requires w.file == EmptyDirectory() && s == FirstChunk(w.file, 100, [])
    ensures RunTiff(w, 12, Found(12, 0, 0, 0), s) == RunLinks(w, Run(Success, 100, Found(12, 0, 0, 0), s))
  {
    hide EmptyDirectory, Full, RunLinks, RunIfd, U32, There, FirstChunk, Sound;
    EmptyDirectoryBytes();
    ChunkSound(w, 100, []);
    ChunkThere(w, 100, [], 12, 8);
    ChunkThere(w, 100, [], 16, 4);
    SameInFile(w, s, 16);
    assert Wrap(12 + 8 + U32(w.file, 16) - 8) == 98;
    FirstDirectoryRun(w, s);
  }

  lemma {:induction false} FirstDirectoryRun(w: World, s: Store)
    requires w.file == EmptyDirectory() && s == FirstChunk(w.file, 100, [])
    ensures RunIfd(w, 98, Found(12, 0, 0, 0), s) == Run(Success, 100, Found(12, 0, 0, 0), s)
  {
    hide EmptyDirectory, Half, U16, There, FirstChunk, Sound;
    EmptyDirectoryBytes();
    ChunkSound(w, 100, []);
    ChunkThere(w, 100, [], 98, 2);
    SameInFile(w, s, 98);
  }

  /** The look at the link, and the directory it leads to. */
  lemma {:induction false} StrayLink(w: World, s: Store)
    requires w == World(EmptyDirectory(), true, StrayDirectory()) && s == FirstChunk(w.file, 100, [])
    ensures var r := RunLinks(w, Run(Success, 100, Found(12, 0, 0, 0), s));
            r.result == Success && r.found == Found(12, 0, 100, 4) && !r.store.inside
  {
    hide EmptyDirectory, RunIfd, WindowFits;
    var found := Found(12, 0, 0, 0);
    var seen := Seen(s, 100, 4);
    assert Full(w.stray, s.buf, 100) == 92;
    assert !seen.inside;
    var g := Grow(w, seen, 104);
    assert g.ok && |g.store.buf| == 1104 && forall i | 104 <= i < 1104 :: g.store.buf[i] == w.stray(1104, i);
    StrayEntries(w, g.store);
    assert RunLinked(w, 92, found, seen) == RunIfd(w, 104, found, g.store);
  }

  lemma {:induction false} StrayEntries(w: World, s: Store)
    requires w.stray == StrayDirectory() && |s.buf| == 1104
    requires forall i | 104 <= i < 1104 :: s.buf[i] == w.stray(1104, i)
    ensures var r := RunIfd(w, 104, Found(12, 0, 0, 0), s); r.result == Success && r.found == Found(12, 0, 100, 4)
  {
    assert Half(w.stray, s.buf, 104) == 2;
    assert Half(w.stray, s.buf, 106) == THUMB_OFFSET && Full(w.stray, s.buf, 114) == 88;
    assert Half(w.stray, s.buf, 118) == THUMB_SIZE && Full(w.stray, s.buf, 126) == 4;
    hide Half, Full;
    var seen := Seen(s, 104, 2);
    assert RunEntries(w, 118, 1, Found(12, 0, 100, 0), Seen(seen, 106, 12)).found == Found(12, 0, 100, 4);
    assert RunEntries(w, 106, 2, Found(12, 0, 0, 0), seen).found == Found(12, 0, 100, 4);
  }

  // --------------------------------------------------------------------------------------- the parser

  /** Where more of the file comes from, into memory that holds what it did before. */
  class Source {
    const file: seq<Byte>
    const stray: Stray
    var replies: seq<Reply>

    constructor (file: seq<Byte>, stray: Stray, replies: seq<Reply>)
      ensures this.file == file && this.stray == stray && this.replies == replies
    {
      this.file, this.stray, this.replies := file, stray, replies;
    }

    method GetMore(buf: seq<Byte>, length: nat) returns (ok: bool, more: seq<Byte>)
      modifies this
      ensures ok == Grants(old(replies)) && replies == Rest(old(replies))
      ensures ok ==> more == Resized(file, stray, buf, length, Upto(|file|, |buf|, length, old(replies)))
    {
      ok, more := Grants(replies), [];
      if ok {
        more := Resized(file, stray, buf, length, Upto(|file|, |buf|, length, replies));
      }
      replies := Rest(replies);
    }
  }

  /** The parser; each method is proved against the run it stands for. */
  class ExifParser {
    var buf: seq<Byte>
    var found: Found
    const canGrow: bool
    const source: Source
    ghost var there: seq<bool>
    ghost var inside: bool

    constructor (source: Source, n: nat, canGrow: bool)
      requires n <= |source.file|
      ensures this.source == source && this.canGrow == canGrow
      ensures Memory() == FirstChunk(source.file, n, source.replies)
    {
      buf, found, this.canGrow, this.source := source.file[..n], NOTHING, canGrow, source;
      there, inside := seq(n, _ => true), true;
    }

    ghost function Around(): World {
      World(source.file, canGrow, source.stray)
    }

    ghost function Memory(): Store
      reads this, source
    {
      Store(buf, there, source.replies, inside)
    }

    /** Keeps account of a look at `n` bytes. */
    ghost method Look(of: int, n: nat)
      modifies `inside
      ensures Memory() == Seen(old(Memory()), of, n)
    {
      inside := inside && There(Memory(), of, n);
    }

    /** Fetches more of the file if the buffer is shorter than `n`, and then somewhat more than that. */
    method EnsureSize(n: Word) returns (ok: bool)
      modifies `buf, `there, source
      ensures Grown(ok, Memory()) == Grow(Around(), old(Memory()), n)
    {
      if n > |buf| {
        if !canGrow {
          return false;
        }
        var length := Wrap(n + 1000);
        ghost var before := source.replies;
        var more;
        ok, more := source.GetMore(buf, length);
        if !ok {
          return false;
        }
        there := ThereThen(there, length, Upto(|source.file|, |buf|, length, before));
        buf := more;
      }
      return true;
    }

    /** Reads a directory, then makes sure of the thumbnail it is known to hold. */
    method ParseIfd(start: Word) returns (r: Result, of: Word)
      modifies `buf, `there, `inside, `found, source
      ensures Run(r, of, found, Memory()) == RunIfd(Around(), start, old(found), old(Memory()))
    {
      hide Half, Full, Grow, Seen, Taken;
      var entries := Half(source.stray, buf, start);
      Look(start, 2);
      of := Wrap(start + 2);
      ghost var goal := RunEntries(Around(), of, entries, found, Memory());
      var i: nat := 0;
      while i < entries
        invariant i <= entries && RunEntries(Around(), of, entries - i, found, Memory()) == goal
      {
        var ok := EnsureSize(Wrap(of + 12));
        if !ok {
          return GaveUp, of;
        }
        TakeEntry(of);
        Look(of, 12);
        of := Wrap(of + 12);
        i := i + 1;
      }
      if found.thumbOf != 0 && found.thumbSize != 0 {
        var ok := EnsureSize(Wrap(found.thumbOf + found.thumbSize));
        if !ok {
          return GaveUp, of;
        }
      }
      return Success, of;
    }

    method TakeEntry(of: Word)
      modifies `found
      ensures found == Taken(old(found), Half(source.stray, buf, of), Full(source.stray, buf, Wrap(of + 8)))
    {
      var tag, value := Half(source.stray, buf, of), Full(source.stray, buf, Wrap(of + 8));
      if tag == THUMB_OFFSET {
        found := found.(thumbOf := Wrap(found.exifStart + value));
      } else if tag == THUMB_SIZE {
        found := found.(thumbSize := value);
      } else if tag == SUB_IFD {
        found := found.(subifd := value);
      }
    }

    /** Reads a directory whose place is given from the start of the block on. */
    method ParseLinked(at: Word) returns (r: Result, of: Word)
      modifies `buf, `there, `inside, `found, source
      ensures Run(r, of, found, Memory()) == RunLinked(Around(), at, old(found), old(Memory()))
    {
      hide Grow, RunIfd;
      of := Wrap(found.exifStart + at);
      var ok := EnsureSize(of);
      if !ok {
        return GaveUp, of;
      }
      r, of := ParseIfd(of);
    }

    method StartEntries(start: Word) returns (r: Result, of: Word)
      modifies `buf, `there, `inside, `found, source
      ensures Run(r, of, found, Memory()) == RunTiff(Around(), start, old(found), old(Memory()))
    {
      hide Full, RunIfd, RunLinked, Seen;
      var offset := Full(source.stray, buf, Wrap(start + 4));
      Look(start, 8);
      r, of := ParseIfd(Wrap(start + 8 + offset - 8));
      if r != Success {
        return;
      }
      var ifd1 := Full(source.stray, buf, of);
      Look(of, 4);
      if ifd1 != 0 {
        r, of := ParseLinked(ifd1);
        if r != Success {
          return;
        }
      }
      if found.subifd != 0 {
        r, of := ParseLinked(found.subifd);
      }
    }

    method Start(start: Word) returns (r: Result, of: Word)
      modifies `buf, `there, `inside, `found, source
      ensures Run(r, of, found, Memory()) == RunSegment(Around(), start, old(found), old(Memory()))
    {
      hide Bytes, RunTiff, Seen;
      of := Wrap(start + 4);
      Look(start, 8);
      if Bytes(source.stray, buf, of, 4) == JFIF {
        of := Wrap(of + 0x12);
      }
      Look(of, 6);
      if Bytes(source.stray, buf, of, 6) != EXIF {
        return NotFound, of;
      }
      of := Wrap(of + 6);
      found := found.(exifStart := of);
      r, of := StartEntries(of);
    }

    /** Parses from the buffer at hand on. */
    method StartRaw() returns (r: Result)
      modifies `buf, `there, `inside, `found, source
      ensures var run := RunRaw(Around(), old(Memory()));
              r == run.result && found == run.found && Memory() == run.store
    {
      hide Bytes, FullBe, At, RunSegment, Seen, Grow;
      found := NOTHING;
      var ok := EnsureSize(100);
      if !ok {
        return GaveUp;
      }
      var of: Word := 0;
      Look(0, 15);
      if Bytes(source.stray, buf, 0, 15) == FUJI_RAW {
        of := FullBe(source.stray, buf, 0x54);
        Look(0x54, 4);
        ok := EnsureSize(of);
        if !ok {
          return GaveUp;
        }
      }
      Look(of, 1);
      if At(source.stray, buf, of) == 0xFF {
        Look(Wrap(of + 1), 1);
        if At(source.stray, buf, Wrap(of + 1)) == 0xD8 {
          r, of := Start(Wrap(of + 2));
          return;
        }
      }
      return Success;
    }
  }
}

/** Downloading an object in pieces, from a camera that may send less than it is asked for. */
module Download {
  import opened Session
  import opened Words

  const MAX_PARTIAL_OBJECT := 0x100000

  datatype Answer = Answer(rc: Rc, len: nat)

  datatype Piece = Piece(offset: nat, data: seq<Byte>)

  /** What the camera is asked. */
  datatype Request = Events | Write(code: int, value: int) | Describe | Part(offset: nat, max: nat)

  /** What an answer brings: as much as it has, is asked for and the object holds from `offset` on. */
  function Got(size: nat, offset: nat, max: nat, len: nat): (n: nat)
    ensures n <= max && n <= len && (offset <= size ==> offset + n <= size)
  {
    var n := if len < max then len else max;
    if offset > size then 0 else if n < size - offset then n else size - offset
  }

  function RcOf(answers: seq<Answer>): Rc {
    if answers == [] then IoError else answers[0].rc
  }

  function PollRc(answers: seq<Answer>): Rc {
    if RcOf(answers) == CheckCode then Success else RcOf(answers)
  }

  function Later(answers: seq<Answer>): seq<Answer> {
    if answers == [] then [] else answers[1..]
  }

  /** The camera holds one object; each command takes the next of its prepared answers, and a camera
      that has none left is gone. */
  class Camera {
    const bytes: seq<Byte>
    var answers: seq<Answer>
    ghost var log: seq<Request>

    constructor (bytes: seq<Byte>, answers: seq<Answer>)
      ensures this.bytes == bytes && this.answers == answers && log == []
    {
      this.bytes, this.answers, log := bytes, answers, [];
    }

    /** At most `max` bytes of the object from `offset` on. */
    method PartialObject(offset: nat, max: nat) returns (rc: Rc, payload: seq<Byte>)
      requires offset <= |bytes|
      modifies this
      ensures rc == RcOf(old(answers)) && answers == Later(old(answers)) && log == old(log) + [Part(offset, max)]
      ensures offset + |payload| <= |bytes| && payload == bytes[offset..offset + |payload|]
      ensures old(answers) != [] ==> |payload| == Got(|bytes|, offset, max, old(answers)[0].len)
    {
      log := log + [Part(offset, max)];
      if answers == [] {
        return IoError, [];
      }
      var a := answers[0];
      answers := answers[1..];
      rc, payload := a.rc, bytes[offset..offset + Got(|bytes|, offset, max, a.len)];
    }

    /** Any other command. */
    method Command(c: Request) returns (rc: Rc)
      modifies this
      ensures rc == RcOf(old(answers)) && answers == Later(old(answers)) && log == old(log) + [c]
    {
      log := log + [c];
      if answers == [] {
        return IoError;
      }
      rc, answers := answers[0].rc, answers[1..];
    }

    /** A poll; that there is nothing to report is an answer. */
    method Poll() returns (rc: Rc)
      modifies this
      ensures rc == PollRc(old(answers)) && answers == Later(old(answers)) && log == old(log) + [Events]
    {
      rc := Command(Events);
      if rc == CheckCode {
        rc := Success;
      }
    }
  }

  // -------------------------------------------------------------------------------------- pieces

  function Contents(pieces: seq<Piece>): seq<Byte> {
    if pieces == [] then [] else Contents(pieces[..|pieces| - 1]) + pieces[|pieces| - 1].data
  }

  /** Each piece starts where the ones before it end. */
  predicate Gapless(pieces: seq<Piece>) {
    pieces == [] ||
    (Gapless(pieces[..|pieces| - 1]) && pieces[|pieces| - 1].offset == |Contents(pieces[..|pieces| - 1])|)
  }

  /** In a gapless run every piece covers its own stretch of the whole. */
  lemma {:induction false} PieceAt(pieces: seq<Piece>, k: nat)
    requires Gapless(pieces) && k < |pieces|
    ensures var p, all := pieces[k], Contents(pieces);
            p.offset + |p.data| <= |all| && all[p.offset..p.offset + |p.data|] == p.data
    ensures k + 1 < |pieces| ==> pieces[k + 1].offset == pieces[k].offset + |pieces[k].data|
    decreases |pieces|
  {
    var init := pieces[..|pieces| - 1];
    if k < |pieces| - 1 {
      PieceAt(init, k);
      assert init[k] == pieces[k];
      if k == |pieces| - 2 {
        assert init[..k] == pieces[..k];
      } else {
        assert init[k + 1] == pieces[k + 1];
      }
    }
  }

  predicate NoneEmpty(pieces: seq<Piece>) {
    forall i | 0 <= i < |pieces| :: pieces[i].data != []
  }

  lemma {:induction false} NoPieces()
    ensures Gapless([]) && Contents([]) == [] && NoneEmpty([])
  {
  }

  lemma {:induction false} AddPiece(pieces: seq<Piece>, p: Piece)
    requires Gapless(pieces) && p.offset == |Contents(pieces)|
    ensures Gapless(pieces + [p]) && Contents(pieces + [p]) == Contents(pieces) + p.data
  {
    assert (pieces + [p])[..|pieces|] == pieces;
  }

  // ------------------------------------------------------------------------------------ downloads

  /** The next of a list of choices, all yes behind its end. */
  predicate Takes(takes: seq<bool>) {
    takes == [] || takes[0]
  }

  /** The next of a list of choices, all no behind its end. */
  predicate Cancels(cancels: seq<bool>) {
    cancels != [] && cancels[0]
  }

  function Tail(choices: seq<bool>): seq<bool> {
    if choices == [] then [] else choices[1..]
  }

  /** Where the pieces go; `takes` says which calls the receiver agrees to. */
  class Receiver {
    var pieces: seq<Piece>
    var takes: seq<bool>

    constructor (takes: seq<bool>)
      ensures pieces == [] && this.takes == takes
    {
      pieces, this.takes := [], takes;
    }

    method Add(data: seq<Byte>, offset: nat) returns (ok: bool)
      requires Gapless(pieces) && offset == |Contents(pieces)|
      modifies this
      ensures Gapless(pieces) && pieces == old(pieces) + [Piece(offset, data)]
      ensures Contents(pieces) == old(Contents(pieces)) + data
      ensures ok == Takes(old(takes)) && takes == Tail(old(takes))
      ensures old(NoneEmpty(pieces)) && data != [] ==> NoneEmpty(pieces)
    {
      AddPiece(pieces, Piece(offset, data));
      pieces := pieces + [Piece(offset, data)];
      ok := true;
      if takes != [] {
        ok, takes := takes[0], takes[1..];
      }
    }
  }

  /** How a download ends: the result, whether the error ended it at once, the bytes delivered from the
      start of the object on, and the answers left. */
  datatype Ending = Ending(rc: Rc, failed: bool, read: nat, answers: seq<Answer>)

  function Least(a: int, b: int): int {
    if a < b then a else b
  }

  /** What the loop over the pieces comes to, from `read` bytes on. */
  function Fetch(total: nat, size: nat, read: nat, answers: seq<Answer>, takes: seq<bool>,
      cancels: seq<bool>): (e: Ending)
    requires read <= size && read <= total
    ensures read <= e.read <= size && e.read <= total
    decreases |answers|
  {
    var cur := Least(0x100000, size - read);
    if Cancels(cancels) then Ending(Canceled, false, read, answers)
    else if answers == [] then Ending(IoError, true, read, [])
    else if answers[0].rc != Success then Ending(answers[0].rc, answers[0].rc != CheckCode, read, answers[1..])
    else
      var n := Got(total, read, cur, answers[0].len);
      if n == 0 then Ending(RuntimeError, false, read, answers[1..])
      else if !Takes(takes) then Ending(Canceled, false, read + n, answers[1..])
      else if read + n >= size then Ending(Success, false, read + n, answers[1..])
      else Fetch(total, size, read + n, answers[1..], Tail(takes), Tail(cancels))
  }

  /** What the loop asks for: each time what is left, or 0x100000 bytes of it. */
  function FetchAsks(total: nat, size: nat, read: nat, answers: seq<Answer>, takes: seq<bool>,
      cancels: seq<bool>): seq<Request>
    requires read <= size && read <= total
    decreases |answers|
  {
    var cur := Least(0x100000, size - read);
    if Cancels(cancels) then []
    else if RcOf(answers) != Success then [Part(read, cur)]
    else
      var n := Got(total, read, cur, answers[0].len);
      if n == 0 || !Takes(takes) || read + n >= size then [Part(read, cur)]
      else [Part(read, cur)] + FetchAsks(total, size, read + n, answers[1..], Tail(takes), Tail(cancels))
  }

  lemma {:induction false} FetchAsksStep(total: nat, size: nat, read: nat, answers: seq<Answer>, takes: seq<bool>,
      cancels: seq<bool>)
    requires read <= size && read <= total && !Cancels(cancels)
    ensures var cur := Least(0x100000, size - read);
            FetchAsks(total, size, read, answers, takes, cancels) ==
            if RcOf(answers) != Success then [Part(read, cur)]
            else
              var n := Got(total, read, cur, answers[0].len);
              if n == 0 || !Takes(takes) || read + n >= size then [Part(read, cur)]
              else [Part(read, cur)] + FetchAsks(total, size, read + n, answers[1..], Tail(takes), Tail(cancels))
  {
  }

  /** An object of no more than 0x100000 bytes comes in one answer, if that holds it all; one of a byte more
      takes two. */
  lemma {:induction false} PiecesByNumbers(total: nat, size: nat, a: Answer, b: Answer)
    requires a.rc == b.rc == Success && 0 < size <= total && a.len >= size && b.len > 0
    ensures size <= 0x100000 ==>
              && FetchAsks(total, size, 0, [a, b], [], []) == [Part(0, size)]
              && Fetch(total, size, 0, [a, b], [], []) == Ending(Success, false, size, [b])
    ensures size == 0x100001 ==>
              && FetchAsks(total, size, 0, [a, b], [], []) == [Part(0, 0x100000), Part(0x100000, 1)]
              && Fetch(total, size, 0, [a, b], [], []) == Ending(Success, false, size, [])
  {
    assert [a, b][1..] == [b] && [b][1..] == [];
    if size == 0x100001 {
      assert FetchAsks(total, size, 0x100000, [b], [], []) == [Part(0x100000, 1)];
      assert Fetch(total, size, 0x100000, [b], [], []) == Ending(Success, false, size, []);
    }
  }

  /** One round of the loop. */
  lemma {:induction false} FetchStep(total: nat, size: nat, read: nat, answers: seq<Answer>, takes: seq<bool>,
      cancels: seq<bool>)
    requires read <= size && read <= total && !Cancels(cancels) && answers != [] && answers[0].rc == Success
    ensures var cur := Least(0x100000, size - read);
            var n := Got(total, read, cur, answers[0].len);
            var e := Fetch(total, size, read, answers, takes, cancels);
            && n <= size - read
            && (n == 0 ==> e == Ending(RuntimeError, false, read, answers[1..]))
            && (n > 0 && !Takes(takes) ==> e == Ending(Canceled, false, read + n, answers[1..]))
            && (n > 0 && Takes(takes) && read + n == size ==> e == Ending(Success, false, size, answers[1..]))
            && (n > 0 && Takes(takes) && read + n < size ==>
                  e == Fetch(total, size, read + n, answers[1..], Tail(takes), Tail(cancels)))
  {
  }

  lemma {:induction false} FetchStops(total: nat, size: nat, read: nat, answers: seq<Answer>, takes: seq<bool>,
      cancels: seq<bool>)
    requires read <= size && read <= total && (Cancels(cancels) || RcOf(answers) != Success)
    ensures Fetch(total, size, read, answers, takes, cancels) ==
            if Cancels(cancels) then Ending(Canceled, false, read, answers)
            else Ending(RcOf(answers), RcOf(answers) != CheckCode, read, Later(answers))
  {
  }

  /** The loop reports success only when it has delivered all of a non-empty object. */
  lemma {:induction false} FetchWhole(total: nat, size: nat, read: nat, answers: seq<Answer>, takes: seq<bool>,
      cancels: seq<bool>)
    requires read <= size && read <= total
    ensures var e := Fetch(total, size, read, answers, takes, cancels);
            e.rc == Success ==> !e.failed && 0 < size <= total && e.read == size
    decreases |answers|
  {
    if answers != [] {
      var cur := Least(0x100000, size - read);
      var n := Got(total, read, cur, answers[0].len);
      if n > 0 {
        FetchWhole(total, size, read + n, answers[1..], Tail(takes), Tail(cancels));
      }
    }
  }

  /** With a receiver that takes everything, no cancelling and answers enough that each bring a byte, the
      whole of a non-empty object is delivered. */
  lemma {:induction false} FetchSucceeds(total: nat, size: nat, read: nat, answers: seq<Answer>, takes: seq<bool>,
      cancels: seq<bool>)
    requires read < size <= total
    requires size - read <= |answers| && forall i | 0 <= i < |answers| :: answers[i].rc == Success && answers[i].len > 0
    requires (forall i | 0 <= i < |takes| :: takes[i]) && forall i | 0 <= i < |cancels| :: !cancels[i]
    ensures var e := Fetch(total, size, read, answers, takes, cancels); e.rc == Success && e.read == size
    decreases |answers|
  {
    var cur := Least(0x100000, size - read);
    var n := Got(total, read, cur, answers[0].len);
    assert n > 0;
    if read + n < size {
      FetchSucceeds(total, size, read + n, answers[1..], Tail(takes), Tail(cancels));
    }
  }

  /** Asks for one piece, and passes it on if it is not empty. */
  method FetchPiece(cam: Camera, to: Receiver, read: nat, cur: nat) returns (rc: Rc, n: nat, ok: bool)
    requires read <= |cam.bytes| && Gapless(to.pieces) && NoneEmpty(to.pieces)
    requires Contents(to.pieces) == cam.bytes[..read]
    modifies cam, to
    ensures rc == RcOf(old(cam.answers)) && cam.answers == Later(old(cam.answers))
    ensures cam.log == old(cam.log) + [Part(read, cur)]
    ensures rc != Success ==> n == 0
    ensures rc == Success && old(cam.answers) != [] ==> n == Got(|cam.bytes|, read, cur, old(cam.answers)[0].len)
    ensures read + n <= |cam.bytes| && Gapless(to.pieces) && NoneEmpty(to.pieces)
    ensures Contents(to.pieces) == cam.bytes[..read + n]
    ensures n > 0 ==> ok == Takes(old(to.takes)) && to.takes == Tail(old(to.takes))
  {
    hide Contents, Gapless, NoneEmpty, Got;
    var payload;
    rc, payload := cam.PartialObject(read, cur);
    n, ok := if rc == Success then |payload| else 0, true;
    if n > 0 {
      assert cam.bytes[..read] + payload == cam.bytes[..read + n];
      ok := to.Add(payload, read);
    }
  }

  lemma {:induction false} NothingAsked(total: nat, size: nat, read: nat, answers: seq<Answer>, takes: seq<bool>,
      cancels: seq<bool>)
    requires read <= size && read <= total && Cancels(cancels)
    ensures FetchAsks(total, size, read, answers, takes, cancels) == []
  {
  }

  lemma {:induction false} AskedMore(log: seq<Request>, c: Request, more: seq<Request>)
    ensures log + ([c] + more) == log + [c] + more
  {
  }

  /** The loop over the pieces. */
  method DownloadPieces(cam: Camera, to: Receiver, size: Word, cancels: seq<bool>) returns (rc: Rc, failed: bool)
    requires to.pieces == []
    modifies cam, to
    ensures Gapless(to.pieces) && NoneEmpty(to.pieces)
    ensures var e := Fetch(|cam.bytes|, size, 0, old(cam.answers), old(to.takes), cancels);
            && rc == e.rc && failed == e.failed && cam.answers == e.answers
            && Contents(to.pieces) == cam.bytes[..e.read]
    ensures cam.log == old(cam.log) + FetchAsks(|cam.bytes|, size, 0, old(cam.answers), old(to.takes), cancels)
  {
    hide Contents, Gapless, NoneEmpty, Got, Fetch, FetchAsks;
    NoPieces();
    var read: Word := 0;
    var left := cancels;
    ghost var asked := cam.log + FetchAsks(|cam.bytes|, size, 0, cam.answers, to.takes, cancels);
    failed := false;
    ghost var goal := Fetch(|cam.bytes|, size, 0, cam.answers, to.takes, cancels);
    while true
      invariant read <= |cam.bytes| && read <= size
      invariant Gapless(to.pieces) && NoneEmpty(to.pieces) && Contents(to.pieces) == cam.bytes[..read]
      invariant !failed && Fetch(|cam.bytes|, size, read, cam.answers, to.takes, left) == goal
      invariant cam.log + FetchAsks(|cam.bytes|, size, read, cam.answers, to.takes, left) == asked
      decreases |cam.answers|
    {
      ghost var before := cam.log;
      if Cancels(left) {
        NothingAsked(|cam.bytes|, size, read, cam.answers, to.takes, left);
        assert cam.log + [] == cam.log;
      } else {
        FetchAsksStep(|cam.bytes|, size, read, cam.answers, to.takes, left);
      }
      if Cancels(left) || RcOf(cam.answers) != Success {
        FetchStops(|cam.bytes|, size, read, cam.answers, to.takes, left);
      } else {
        FetchStep(|cam.bytes|, size, read, cam.answers, to.takes, left);
      }
      if Cancels(left) {
        return Canceled, false;
      }
      left := Tail(left);
      var cur: Word := Wrap(size - read);
      if cur > MAX_PARTIAL_OBJECT {
        cur := MAX_PARTIAL_OBJECT;
      }
      var n, ok;
      rc, n, ok := FetchPiece(cam, to, read, cur);
      AskedMore(before, Part(read, cur), FetchAsks(|cam.bytes|, size, read + n, cam.answers, to.takes, left));
      if rc == CheckCode {
        return;
      } else if rc != Success {
        return rc, true;
      }
      if n == 0 {
        return RuntimeError, false;
      }
      if !ok {
        return Canceled, false;
      }
      read := Wrap(read + n);
      if read >= size {
        return Success, false;
      }
    }
  }

  /** The commands in front of the object's description: the answers left, or the error that ends it all.
      Of what is written there only the poll in front of it is looked at. */
  function Opening(transport: Transport, answers: seq<Answer>): (Rc, seq<Answer>) {
    if transport == WirelessComm then
      (PollRc(answers), if PollRc(answers) == Success then Later(Later(answers)) else Later(answers))
    else (Success, if transport == XappWirelessComm then Later(answers) else answers)
  }

  function OpeningAsks(transport: Transport, answers: seq<Answer>, compress: bool): seq<Request> {
    if transport == WirelessComm then
      if PollRc(answers) == Success then [Events, Write(0xd227, 1)] else [Events]
    else if transport == XappWirelessComm then [Write(0xd226, if compress then 1 else 2)]
    else []
  }

  /** The description of the object, then the loop. */
  function Middle(total: nat, size: nat, answers: seq<Answer>, takes: seq<bool>, cancels: seq<bool>): (e: Ending)
    ensures e.read <= size && e.read <= total
  {
    if RcOf(answers) != Success then Ending(RcOf(answers), false, 0, Later(answers))
    else Fetch(total, size, 0, Later(answers), takes, cancels)
  }

  function MiddleAsks(total: nat, size: nat, answers: seq<Answer>, takes: seq<bool>, cancels: seq<bool>): seq<Request> {
    [Describe] + if RcOf(answers) != Success then [] else FetchAsks(total, size, 0, Later(answers), takes, cancels)
  }

  /** The result of a whole download.  Over a plain wireless connection it is that of the closing poll
      and write, unless an error ended the loop at once. */
  function Result(transport: Transport, e: Ending): Rc {
    if e.failed || transport != WirelessComm then e.rc
    else if PollRc(e.answers) != Success then PollRc(e.answers)
    else RcOf(Later(e.answers))
  }

  function ClosingAsks(transport: Transport, e: Ending): seq<Request> {
    if e.failed then []
    else if transport == WirelessComm then
      if PollRc(e.answers) == Success then [Events, Write(0xd227, 0)] else [Events]
    else if transport == XappWirelessComm then [Write(0xd226, 2)]
    else []
  }

  method DownloadFileEx(cam: Camera, to: Receiver, transport: Transport, size: Word, compress: bool,
      cancels: seq<bool>)
    returns (rc: Rc)
    requires to.pieces == []
    modifies cam, to
    ensures Gapless(to.pieces) && NoneEmpty(to.pieces)
    ensures var (first, answers) := Opening(transport, old(cam.answers));
            var opening := old(cam.log) + OpeningAsks(transport, old(cam.answers), compress);
            if first != Success then rc == first && to.pieces == [] && cam.log == opening
            else
              var e := Middle(|cam.bytes|, size, answers, old(to.takes), cancels);
              && rc == Result(transport, e) && Contents(to.pieces) == cam.bytes[..e.read]
              && cam.log == opening + MiddleAsks(|cam.bytes|, size, answers, old(to.takes), cancels)
                              + ClosingAsks(transport, e)
  {
    hide Contents, Gapless, NoneEmpty, Got, Fetch, FetchAsks;
    NoPieces();
    rc := Open(cam, transport, compress);
    if rc != Success { return; }
    ghost var opening := cam.log;
    rc := cam.Command(Describe);
    ghost var asked: seq<Request> := [];
    if rc == Success {
      var failed;
      asked := FetchAsks(|cam.bytes|, size, 0, cam.answers, to.takes, cancels);
      rc, failed := DownloadPieces(cam, to, size, cancels);
      AskedMore(opening, Describe, asked);
      if failed {
        assert cam.log + [] == cam.log;
        return;
      }
    } else {
      assert [Describe] + [] == [Describe];
    }
    assert cam.log == opening + ([Describe] + asked);
    rc := Close(cam, transport, rc);
  }

  method Open(cam: Camera, transport: Transport, compress: bool) returns (rc: Rc)
    modifies cam
    ensures (rc, cam.answers) == Opening(transport, old(cam.answers))
    ensures cam.log == old(cam.log) + OpeningAsks(transport, old(cam.answers), compress)
  {
    rc := Success;
    if transport == WirelessComm {
      rc := cam.Poll();
      if rc != Success { return; }
      var ignored := cam.Command(Write(0xd227, 1));
    } else if transport == XappWirelessComm {
      var ignored := cam.Command(Write(0xd226, if compress then 1 else 2));
    }
  }

  /** What ends a download that was not broken off. */
  method Close(cam: Camera, transport: Transport, outcome: Rc) returns (rc: Rc)
    modifies cam
    ensures forall read :: rc == Result(transport, Ending(outcome, false, read, old(cam.answers)))
    ensures forall read :: cam.log == old(cam.log)
                                      + ClosingAsks(transport, Ending(outcome, false, read, old(cam.answers)))
  {
    rc := outcome;
    if transport == WirelessComm {
      rc := cam.Poll();
      if rc != Success { return; }
      rc := cam.Command(Write(0xd227, 0));
    } else if transport == XappWirelessComm {
      var ignored := cam.Command(Write(0xd226, 2));
    }
  }

  /** A download over each transport by numbers, with an object of ten bytes and good answers. */
  lemma {:induction false} DownloadByNumbers(a: Answer, compress: bool)
    requires a == Answer(Success, 10)
    ensures OpeningAsks(WirelessComm, [a, a, a, a, a, a], compress)
              + MiddleAsks(10, 10, [a, a, a, a], [], []) + ClosingAsks(WirelessComm, Ending(Success, false, 10, [a, a]))
         == [Events, Write(0xd227, 1), Describe, Part(0, 10), Events, Write(0xd227, 0)]
    ensures Opening(WirelessComm, [a, a, a, a, a, a]) == (Success, [a, a, a, a])
    ensures Middle(10, 10, [a, a, a, a], [], []) == Ending(Success, false, 10, [a, a])
    ensures OpeningAsks(XappWirelessComm, [a, a, a, a], compress)
              + MiddleAsks(10, 10, [a, a, a], [], []) + ClosingAsks(XappWirelessComm, Ending(Success, false, 10, [a]))
         == [Write(0xd226, if compress then 1 else 2), Describe, Part(0, 10), Write(0xd226, 2)]
    ensures OpeningAsks(Usb, [a, a], compress) + MiddleAsks(10, 10, [a, a], [], [])
              + ClosingAsks(Usb, Ending(Success, false, 10, []))
         == [Describe, Part(0, 10)]
  {
    var all := [a, a, a, a, a, a];
    assert all[1..] == [a, a, a, a, a] && [a, a, a, a, a][1..] == [a, a, a, a] && [a, a, a, a][1..] == [a, a, a];
    assert [a, a, a][1..] == [a, a] && [a, a][1..] == [a];
    OneAsked([a, a, a]);
    OneAsked([a, a]);
    OneAsked([a]);
  }

  /** What the commands around the loop come to.  Over plain wireless the poll in front has to go well and
      the write behind it is not looked at; behind the loop the poll has to go well, and then the write counts.
      Over the newer protocol no write counts, and over the others there is none. */
  lemma {:induction false} OutcomesByCases(rc: Rc, read: nat, p: Answer, q: Answer)
    ensures Opening(WirelessComm, [p, q]) ==
            if p.rc == Success || p.rc == CheckCode then (Success, []) else (p.rc, [q])
    ensures Opening(XappWirelessComm, [p, q]) == (Success, [q]) && Opening(Usb, [p, q]) == (Success, [p, q])
    ensures Result(WirelessComm, Ending(rc, false, read, [p, q])) ==
            if p.rc == Success || p.rc == CheckCode then q.rc else p.rc
    ensures Result(WirelessComm, Ending(rc, true, read, [p, q]))
              == Result(XappWirelessComm, Ending(rc, false, read, [p, q]))
         == Result(Usb, Ending(rc, false, read, [p, q])) == rc
  {
    assert [p, q][1..] == [q] && [q][1..] == [];
  }

  lemma {:induction false} OneAsked(answers: seq<Answer>)
    requires answers != [] && answers[0] == Answer(Success, 10)
    ensures FetchAsks(10, 10, 0, answers, [], []) == [Part(0, 10)]
    ensures Fetch(10, 10, 0, answers, [], []) == Ending(Success, false, 10, answers[1..])
  {
  }

  /** Over which transports success means that the whole object was delivered, whatever the camera
      answers: all but plain wireless. */
  ghost predicate SuccessMeansWhole(transport: Transport) {
    forall total: nat, size: nat, answers, takes, cancels ::
      var e := Middle(total, size, answers, takes, cancels);
      Result(transport, e) == Success ==> 0 < size <= total && e.read == size
  }

  lemma {:induction false} OnlyWirelessMisreports(transport: Transport)
    ensures SuccessMeansWhole(transport) <==> transport != WirelessComm
  {
    hide Fetch;
    if transport == WirelessComm {
      WirelessMisreports();
    } else {
      forall total: nat, size: nat, answers, takes, cancels
        ensures var e := Middle(total, size, answers, takes, cancels);
                Result(transport, e) == Success ==> 0 < size <= total && e.read == size
      {
        FetchWhole(total, size, 0, Later(answers), takes, cancels);
      }
    }
  }

  /** A camera that describes an object of two bytes, sends one and then refuses, and answers the closing
      commands: the download reports success. */
  lemma {:induction false} WirelessMisreports()
    ensures var ok := Answer(Success, 1);
            var e := Middle(2, 2, [ok, ok, Answer(CheckCode, 0), ok, ok], [], []);
            Result(WirelessComm, e) == Success && e.read == 1
  {
    var ok := Answer(Success, 1);
    var rest := [ok, Answer(CheckCode, 0), ok, ok];
    assert rest[1..] == [Answer(CheckCode, 0), ok, ok];
    assert Fetch(2, 2, 1, rest[1..], [], []) == Ending(CheckCode, false, 1, [ok, ok]);
    assert Got(2, 0, 2, 1) == 1;
    assert Fetch(2, 2, 0, rest, [], []) == Ending(CheckCode, false, 1, [ok, ok]);
    assert [ok, ok, Answer(CheckCode, 0), ok, ok][1..] == rest;
  }

  // ------------------------------------------------------------------- downloads of an unknown size

  /** What asking for `max` bytes at a time comes to, until less than that is sent. */
  function Chunks(total: nat, max: nat, read: nat, answers: seq<Answer>): (e: Ending)
    requires read <= total
    ensures read <= e.read <= total && !e.failed
    decreases |answers|
  {
    if RcOf(answers) != Success then Ending(RcOf(answers), false, read, Later(answers))
    else
      var n := Got(total, read, max, answers[0].len);
      if n == 0 || n != max then Ending(Success, false, read + n, answers[1..])
      else Chunks(total, max, read + n, answers[1..])
  }

  function ChunksAsk(total: nat, max: nat, read: nat, answers: seq<Answer>): seq<Request>
    requires read <= total
    decreases |answers|
  {
    if RcOf(answers) != Success then [Part(read, max)]
    else
      var n := Got(total, read, max, answers[0].len);
      if n == 0 || n != max then [Part(read, max)]
      else [Part(read, max)] + ChunksAsk(total, max, read + n, answers[1..])
  }

  /** The answer brings less than is asked for. */
  predicate Short(total: nat, max: nat, read: nat, answers: seq<Answer>, k: nat)
    requires k < |answers|
  {
    Got(total, read + k * max, max, answers[k].len) < max
  }

  /** The answer is short, and no error came before it. */
  predicate StopsAt(total: nat, max: nat, read: nat, answers: seq<Answer>, k: nat) {
    k < |answers| && Short(total, max, read, answers, k) && forall i | 0 <= i <= k :: answers[i].rc == Success
  }

  /** Success is reported exactly when the camera sends less than it is asked for before any error. */
  lemma {:induction false} ChunksSucceed(total: nat, max: nat, read: nat, answers: seq<Answer>)
    requires read <= total && max > 0
    ensures Chunks(total, max, read, answers).rc == Success <==>
            exists k: nat :: StopsAt(total, max, read, answers, k)
    decreases |answers|
  {
    hide Short, StopsAt;
    if RcOf(answers) != Success {
      StopsNever(total, max, read, answers);
    } else {
      StopsNow(total, max, read, answers);
      if Got(total, read, max, answers[0].len) == max {
        var rest, next := answers[1..], read + max;
        ChunksSucceed(total, max, next, rest);
        forall k: nat | k > 0
          ensures StopsAt(total, max, read, answers, k) == StopsAt(total, max, next, rest, k - 1)
        {
          StopsLater(total, max, read, answers, k - 1);
        }
        if k: nat :| StopsAt(total, max, next, rest, k) {
          StopsLater(total, max, read, answers, k);
        }
      }
    }
  }

  lemma {:induction false} StopsNever(total: nat, max: nat, read: nat, answers: seq<Answer>)
    requires RcOf(answers) != Success
    ensures forall k: nat :: !StopsAt(total, max, read, answers, k)
  {
    forall k: nat
      ensures !StopsAt(total, max, read, answers, k)
    {
      if k < |answers| {
        assert answers[0].rc != Success;
      }
    }
  }

  lemma {:induction false} StopsNow(total: nat, max: nat, read: nat, answers: seq<Answer>)
    requires RcOf(answers) == Success
    ensures StopsAt(total, max, read, answers, 0) <==> Got(total, read, max, answers[0].len) < max
  {
    assert read + 0 * max == read;
  }

  lemma {:induction false} StopsLater(total: nat, max: nat, read: nat, answers: seq<Answer>, k: nat)
    requires RcOf(answers) == Success
    ensures StopsAt(total, max, read, answers, k + 1) == StopsAt(total, max, read + max, answers[1..], k)
  {
    var rest := answers[1..];
    assert read + max + k * max == read + (k + 1) * max;
    if k < |rest| {
      assert rest[k] == answers[k + 1];
      assert forall i | 0 <= i <= k :: rest[i] == answers[i + 1];
      assert forall i | 1 <= i <= k + 1 :: answers[i] == rest[i - 1];
    }
  }

  /** No answer in front of the end of the object is shorter than what is asked for and left. */
  predicate ShortAtEndOnly(total: nat, max: nat, read: nat, answers: seq<Answer>) {
    forall k: nat | k < |answers| && read + k * max < total ::
      answers[k].len >= max || answers[k].len >= total - (read + k * max)
  }

  /** Success means the whole object exactly when no answer in front of its end is short. */
  lemma {:induction false} ChunksWhole(total: nat, max: nat, read: nat, answers: seq<Answer>)
    requires read <= total && max > 0 && Chunks(total, max, read, answers).rc == Success
    ensures Chunks(total, max, read, answers).read == total <==> ShortAtEndOnly(total, max, read, answers)
    decreases |answers|
  {
    var n := Got(total, read, max, answers[0].len);
    assert read + 0 * max == read;
    if n == max {
      var rest := answers[1..];
      ChunksWhole(total, max, read + max, rest);
      ShortLater(total, max, read, answers);
    } else {
      ShortNow(total, max, read, answers);
    }
  }

  lemma {:induction false} ShortLater(total: nat, max: nat, read: nat, answers: seq<Answer>)
    requires answers != [] && (answers[0].len >= max || read >= total)
    ensures ShortAtEndOnly(total, max, read, answers) <==> ShortAtEndOnly(total, max, read + max, answers[1..])
  {
    var rest := answers[1..];
    assert forall k: nat :: read + max + k * max == read + (k + 1) * max;
    if ShortAtEndOnly(total, max, read, answers) {
      forall k: nat | k < |rest| && read + max + k * max < total
        ensures rest[k].len >= max || rest[k].len >= total - (read + max + k * max)
      {
        assert rest[k] == answers[k + 1] && read + (k + 1) * max < total;
      }
    }
    if ShortAtEndOnly(total, max, read + max, rest) {
      forall k: nat | k < |answers| && read + k * max < total
        ensures answers[k].len >= max || answers[k].len >= total - (read + k * max)
      {
        if k > 0 {
          assert answers[k] == rest[k - 1] && read + max + (k - 1) * max < total;
        }
      }
    }
  }

  /** A short answer brings the rest of the object, or it is short in front of the end. */
  lemma {:induction false} ShortNow(total: nat, max: nat, read: nat, answers: seq<Answer>)
    requires answers != [] && read <= total
    requires Got(total, read, max, answers[0].len) < max
    ensures read + Got(total, read, max, answers[0].len) == total <==> ShortAtEndOnly(total, max, read, answers)
  {
    var n := Got(total, read, max, answers[0].len);
    assert read + 0 * max == read;
    if read + n == total {
      forall k: nat | k < |answers| && read + k * max < total
        ensures answers[k].len >= max || answers[k].len >= total - (read + k * max)
      {
      }
    }
  }

  /** A camera that sends one byte of three where two were asked for: success is reported. */
  lemma {:induction false} ShortReplyEnds()
    ensures Chunks(3, 2, 0, [Answer(Success, 1)]) == Ending(Success, false, 1, [])
  {
  }

  /** Downloads without knowing the size: a piece shorter than asked for is the last. */
  method AppDownloadFile(cam: Camera, to: Receiver, maxChunk: Word) returns (rc: Rc)
    requires to.pieces == [] && |cam.bytes| < 0x1_0000_0000
    modifies cam, to
    ensures var e := Chunks(|cam.bytes|, maxChunk, 0, old(cam.answers));
            && rc == e.rc && cam.answers == e.answers
            && Gapless(to.pieces) && Contents(to.pieces) == cam.bytes[..e.read]
            && (rc == Success ==> to.pieces != [] && to.pieces[|to.pieces| - 1] == Piece(e.read, []))
    ensures cam.log == old(cam.log) + ChunksAsk(|cam.bytes|, maxChunk, 0, old(cam.answers))
    ensures rc == Success && maxChunk > 0 ==>
              (Contents(to.pieces) == cam.bytes <==> ShortAtEndOnly(|cam.bytes|, maxChunk, 0, old(cam.answers)))
  {
    hide Contents, Gapless, Got, Chunks, ChunksAsk, ShortAtEndOnly;
    ghost var asked := cam.log + ChunksAsk(|cam.bytes|, maxChunk, 0, cam.answers);
    NoPieces();
    WholeBytes(cam.bytes, maxChunk, cam.answers);
    var read: Word := 0;
    ghost var goal := Chunks(|cam.bytes|, maxChunk, 0, cam.answers);
    while true
      invariant read <= |cam.bytes| && Gapless(to.pieces) && Contents(to.pieces) == cam.bytes[..read]
      invariant Chunks(|cam.bytes|, maxChunk, read, cam.answers) == goal
      invariant cam.log + ChunksAsk(|cam.bytes|, maxChunk, read, cam.answers) == asked
      decreases |cam.answers|
    {
      ChunksStep(|cam.bytes|, maxChunk, read, cam.answers);
      ghost var before := cam.log;
      var payload;
      rc, payload := cam.PartialObject(read, maxChunk);
      AskedMore(before, Part(read, maxChunk), ChunksAsk(|cam.bytes|, maxChunk, read + |payload|, cam.answers));
      if rc != Success {
        return;
      }
      if |payload| == 0 {
        break;
      }
      assert cam.bytes[..read] + payload == cam.bytes[..read + |payload|];
      var ok := to.Add(payload, read);
      read := Wrap(read + |payload|);
      if |payload| != maxChunk {
        break;
      }
    }
    var ok := to.Add([], read);
    assert cam.bytes[..read] + [] == cam.bytes[..read];
    return Success;
  }

  lemma {:induction false} WholeBytes(bytes: seq<Byte>, max: nat, answers: seq<Answer>)
    ensures var e := Chunks(|bytes|, max, 0, answers);
            e.rc == Success && max > 0 ==> (bytes[..e.read] == bytes <==> ShortAtEndOnly(|bytes|, max, 0, answers))
  {
    if max > 0 && Chunks(|bytes|, max, 0, answers).rc == Success {
      ChunksWhole(|bytes|, max, 0, answers);
    }
  }

  /** One round of the loop. */
  lemma {:induction false} ChunksStep(total: nat, max: nat, read: nat, answers: seq<Answer>)
    requires read <= total
    ensures var e := Chunks(total, max, read, answers);
            if RcOf(answers) != Success then e == Ending(RcOf(answers), false, read, Later(answers))
            else
              var n := Got(total, read, max, answers[0].len);
              e == if n == 0 || n != max then Ending(Success, false, read + n, answers[1..])
                   else Chunks(total, max, read + n, answers[1..])
    ensures ChunksAsk(total, max, read, answers) ==
            if RcOf(answers) != Success then [Part(read, max)]
            else
              var n := Got(total, read, max, answers[0].len);
              if n == 0 || n != max then [Part(read, max)]
              else [Part(read, max)] + ChunksAsk(total, max, read + n, answers[1..])
  {
  }
}

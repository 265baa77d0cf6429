/** The session with a camera: setting it up, and switching in and out of live view.  The camera is a
    script of replies, and every command sent is kept on a trace with the reply to it. */
module Session {

  datatype Rc = Success | CheckCode | RuntimeError | IoError | Canceled

  datatype Transport = AutoSave | WirelessTether | WirelessComm | XappWirelessComm | Usb

  datatype Screen = Liveview | Gallery | Dashboard

  const EVENTS_LIST := 0xd212
  const SELECTED_IMGS_MODE := 0xd220
  const OBJECT_COUNT := 0xd222
  const COMPRESS_SMALL := 0xd226
  const CORRECT_FILE_SIZE := 0xd227
  const UNKNOWN_D22B := 0xd22b
  const STORAGE_ID := 0xd244
  const IMPORT_OBJECT_COUNT := 0xd620
  const IMPORT_OBJECT_HANDLES := 0xd621
  const CAMERA_STATE := 0xdf00
  const CLIENT_STATE := 0xdf01
  const IMAGE_GET_VERSION := 0xdf21
  const GET_OBJECT_VERSION := 0xdf22
  const AUTO_SAVE_VERSION := 0xdf23
  const REMOTE_VERSION := 0xdf24
  const REMOTE_GET_OBJECT_VERSION := 0xdf25
  const PHOTO_VIEW_EX_VERSION := 0xdf28
  const UNKNOWN_DF2A := 0xdf2a

  const WAIT_FOR_ACCESS := 0
  const MULTIPLE_TRANSFER := 1
  const FULL_ACCESS := 2
  const PC_AUTO_SAVE := 3
  const REMOTE_ACCESS := 6

  const VIEW_MULTIPLE := 1
  const VIEW_ALL_IMGS := 2
  const OLD_REMOTE := 3
  const REMOTE_MODE := 5
  const REMOTE_IMG_VIEW := 11
  const REMOTE_IMG_VIEW_XAPP := 20
  const REMOTE_LIVE_VIEW_XAPP := 22

  const CLIENT_REMOTE_VERSION := 0x2000C
  const SESSION_ALREADY_OPENED := 0x201E

  datatype Extension = DeviceInfo | ObjectInfoEx | ThumbEx | ImportFolders | ImportDates

  datatype Command =
    | Handshake
    | ConnectEvents
    | ConnectVideo
    | OpenSession(id: nat)
    | GetProp(code: int)
    | SetProp(code: int, value: int)
    | ObjectInfo(handle: nat)
    | Vendor(extension: Extension)
    | OpenCapture
    | TerminateCapture(id: nat)

  datatype Event = Event(code: int, value: int)

  datatype Reply = Reply(rc: Rc, value: int, events: seq<Event>)

  datatype Step = Step(command: Command, transaction: nat, reply: Reply)

  // ------------------------------------------------------------------------------ what a trace shows

  /** The open capture, if any; `Broken` once a second one was opened or another one was terminated. */
  datatype Capture = Closed | Opened(id: nat) | Broken

  /** `known` is the camera state last reported; `guarded` says that the client state was not written
      for the first time before the camera had reported a state other than waiting; `sent` are the
      commands sent, in order, but for those that ask what picture an event is about. */
  datatype View = View(capture: Capture, eventSockets: nat, videoSockets: nat, wrote: bool, guarded: bool, known: int,
                       sent: seq<Command>)

  function NextCapture(c: Capture, s: Step): Capture {
    if s.reply.rc != Success then c
    else
      match s.command
      case OpenCapture => if c == Closed then Opened(s.transaction) else Broken
      case TerminateCapture(id) => if c == Opened(id) then Closed else Broken
      case _ => c
  }

  /** The value of the last event with that code, or `otherwise`. */
  function LastValue(events: seq<Event>, code: int, otherwise: int): int {
    if events == [] then otherwise
    else LastValue(events[1..], code, if events[0].code == code then events[0].value else otherwise)
  }

  predicate IsClientWrite(c: Command) {
    c.SetProp? && c.code == CLIENT_STATE
  }

  function Next(v: View, s: Step): View {
    View(
      NextCapture(v.capture, s),
      v.eventSockets + if s.command == ConnectEvents && s.reply.rc == Success then 1 else 0,
      v.videoSockets + if s.command == ConnectVideo && s.reply.rc == Success then 1 else 0,
      v.wrote || IsClientWrite(s.command),
      v.guarded && (IsClientWrite(s.command) && !v.wrote ==> v.known != -1 && v.known != WAIT_FOR_ACCESS),
      if s.command == GetProp(EVENTS_LIST) && s.reply.rc == Success
      then LastValue(s.reply.events, CAMERA_STATE, v.known)
      else v.known,
      v.sent + if s.command.ObjectInfo? then [] else [s.command])
  }

  function ViewOf(trace: seq<Step>): View {
    if trace == [] then View(Closed, 0, 0, false, true, -1, [])
    else Next(ViewOf(trace[..|trace| - 1]), trace[|trace| - 1])
  }

  /** A broken capture stays broken, so a trace that is not broken was so at no point. */
  lemma {:induction false} NeverBroken(trace: seq<Step>, k: nat)
    requires ViewOf(trace).capture != Broken && k <= |trace|
    ensures ViewOf(trace[..k]).capture != Broken
    decreases |trace| - k
  {
    if k < |trace| {
      NeverBroken(trace, k + 1);
      assert trace[..k + 1][..k] == trace[..k];
    } else {
      assert trace[..k] == trace;
    }
  }

  /** Refusals that are taken for an answer: nothing to poll, no description of a picture, no number of the
      card, and a session that is open already. */
  predicate Tolerated(c: Command, value: int) {
    || c == GetProp(EVENTS_LIST) || c == GetProp(STORAGE_ID) || c.ObjectInfo?
    || (c.OpenSession? && value == SESSION_ALREADY_OPENED)
  }

  predicate Failed(s: Step) {
    s.reply.rc != Success && !(s.reply.rc == CheckCode && Tolerated(s.command, s.reply.value))
  }

  /** The number of commands that failed. */
  function ErrorsIn(trace: seq<Step>): nat {
    if trace == [] then 0
    else ErrorsIn(trace[..|trace| - 1]) + if Failed(trace[|trace| - 1]) then 1 else 0
  }

  lemma {:induction false} ErrorsGrow(a: seq<Step>, b: seq<Step>)
    requires a <= b
    ensures ErrorsIn(a) <= ErrorsIn(b)
    decreases |b|
  {
    if a != b {
      assert a <= b[..|b| - 1];
      ErrorsGrow(a, b[..|b| - 1]);
    }
  }

  /** As many errors before as after says that no command in between failed. */
  lemma {:induction false} ErrorFree(a: seq<Step>, b: seq<Step>)
    requires a <= b
    ensures ErrorsIn(a) == ErrorsIn(b) <==> forall k | |a| <= k < |b| :: !Failed(b[k])
    decreases |b|
  {
    if a != b {
      var init := b[..|b| - 1];
      assert a <= init;
      ErrorFree(a, init);
      ErrorsGrow(a, init);
      assert forall k | |a| <= k < |init| :: init[k] == b[k];
    }
  }

  /** One trace goes on from another, and a result other than success shows as a failed command. */
  predicate Follows(a: seq<Step>, b: seq<Step>, rc: Rc) {
    a <= b && ErrorsIn(a) <= ErrorsIn(b) && (rc != Success ==> ErrorsIn(a) < ErrorsIn(b))
  }

  lemma {:induction false} FollowsOn(a: seq<Step>, b: seq<Step>, c: seq<Step>, rc: Rc)
    requires Follows(a, b, Success) && Follows(b, c, rc)
    ensures Follows(a, c, rc)
  {
    hide ErrorsIn;
  }

  /** Traces that follow on one another. */
  lemma {:induction false} FollowChain()
    ensures forall a :: Follows(a, a, Success)
    ensures forall a, b, rc {:trigger Follows(a, b, rc)} :: Follows(a, b, rc) ==> a <= b
    ensures forall a, b, rc {:trigger Follows(a, b, rc)} :: Follows(a, b, rc) ==> Follows(a, b, Success)
    ensures forall a, b, c, rc {:trigger Follows(a, b, Success), Follows(b, c, rc)} ::
              Follows(a, b, Success) && Follows(b, c, rc) ==> Follows(a, c, rc)
  {
    forall a, b, c, rc | Follows(a, b, Success) && Follows(b, c, rc)
      ensures Follows(a, c, rc)
    {
      FollowsOn(a, b, c, rc);
    }
  }

  /** Along a chain without a failed command none of its parts has one. */
  lemma {:induction false} ErrorsBetween(a: seq<Step>, b: seq<Step>, c: seq<Step>, rc: Rc)
    requires Follows(a, b, rc) && Follows(b, c, Success)
    ensures ErrorsIn(a) == ErrorsIn(c) ==> rc == Success && ErrorsIn(a) == ErrorsIn(b) == ErrorsIn(c)
  {
    hide ErrorsIn;
  }

  lemma {:induction false} OneMore(before: seq<Command>, done: seq<Command>, c: Command)
    ensures before + done + [c] == before + (done + [c])
  {
  }

  /** One command further along a list of them. */
  lemma {:induction false} NextOf(before: seq<Command>, all: seq<Command>, n: nat)
    requires n < |all|
    ensures before + all[..n] + [all[n]] == before + all[..n + 1]
  {
  }

  lemma {:induction false} AllOf(before: seq<Command>, all: seq<Command>)
    ensures before + all[..0] == before && all[..|all|] == all
  {
  }

  lemma {:induction false} SomeMore(before: seq<Command>, done: seq<Command>, more: seq<Command>)
    ensures before + done + more == before + (done + more)
  {
  }

  // ------------------------------------------------------------------------- what a script leads to

  /** The outcome of going through events, each of which may start a download, and the replies left. */
  function AfterEvents(events: seq<Event>, rs: seq<Reply>): (Rc, seq<Reply>) {
    if events == [] then (Success, rs)
    else if events[0] == Event(CAMERA_STATE, MULTIPLE_TRANSFER) then
      if rs == [] then (IoError, [])
      else if rs[0].rc == Success || rs[0].rc == CheckCode then AfterEvents(events[1..], rs[1..])
      else (rs[0].rc, rs[1..])
    else AfterEvents(events[1..], rs)
  }

  /** The outcome of a poll, and the replies left. */
  function Poll(rs: seq<Reply>): (Rc, seq<Reply>) {
    if rs == [] then (IoError, [])
    else if rs[0].rc == CheckCode then (Success, rs[1..])
    else if rs[0].rc != Success then (rs[0].rc, rs[1..])
    else AfterEvents(rs[0].events, rs[1..])
  }

  /** What the command behind a poll comes back with. */
  function BehindPoll(rs: seq<Reply>): Rc {
    if Poll(rs).1 == [] then IoError else Poll(rs).1[0].rc
  }

  /** A script whose next poll goes well and whose reply behind it is a success. */
  predicate PollThenSucceed(rs: seq<Reply>) {
    Poll(rs).0 == Success && BehindPoll(rs) == Success
  }

  /** A script under which a capture and, the first time, the two sockets can be opened. */
  predicate Begins(rs: seq<Reply>, sockets: bool) {
    && rs != [] && rs[0].rc == Success && Poll(rs[1..]).0 == Success
    && var rest := Poll(rs[1..]).1;
       sockets || (|rest| >= 2 && rest[0].rc == Success && rest[1].rc == Success)
  }

  predicate IsCaptureStep(s: Step) {
    s.reply.rc == Success && (s.command.OpenCapture? || s.command.TerminateCapture?)
  }

  /** An open capture was opened under its number, and nothing has touched it since. */
  lemma {:induction false} OpenedBy(trace: seq<Step>) returns (j: nat)
    requires ViewOf(trace).capture.Opened?
    ensures j < |trace| && trace[j].command == OpenCapture && trace[j].reply.rc == Success
    ensures trace[j].transaction == ViewOf(trace).capture.id
    ensures forall m | j < m < |trace| :: !IsCaptureStep(trace[m])
  {
    var init := trace[..|trace| - 1];
    if IsCaptureStep(trace[|trace| - 1]) {
      j := |trace| - 1;
    } else {
      j := OpenedBy(init);
      assert forall m | j < m < |init| :: trace[m] == init[m];
    }
  }

  /** Every terminate that goes through names the transaction of the open before it. */
  lemma {:induction false} TerminateMatches(trace: seq<Step>, k: nat) returns (j: nat)
    requires ViewOf(trace).capture != Broken && k < |trace|
    requires trace[k].command.TerminateCapture? && trace[k].reply.rc == Success
    ensures j < k && trace[j].command == OpenCapture && trace[j].reply.rc == Success
    ensures trace[j].transaction == trace[k].command.id
    ensures forall m | j < m < k :: !IsCaptureStep(trace[m])
  {
    NeverBroken(trace, k + 1);
    assert trace[..k + 1][..k] == trace[..k];
    j := OpenedBy(trace[..k]);
    assert forall m | j < m < k :: trace[m] == trace[..k][m];
  }

  /** A guarded trace holds no client state before a report of the camera state: at the first write, the
      last report was neither missing nor waiting. */
  lemma {:induction false} FirstWriteGuarded(trace: seq<Step>, k: nat)
    requires ViewOf(trace).guarded && k < |trace| && IsClientWrite(trace[k].command)
    requires forall j | 0 <= j < k :: !IsClientWrite(trace[j].command)
    ensures ViewOf(trace[..k]).known != -1 && ViewOf(trace[..k]).known != WAIT_FOR_ACCESS
    decreases |trace|
  {
    var init := trace[..|trace| - 1];
    if k == |trace| - 1 {
      NotWritten(init);
    } else {
      FirstWriteGuarded(init, k);
      assert init[..k] == trace[..k];
    }
  }

  lemma {:induction false} NotWritten(trace: seq<Step>)
    requires forall j | 0 <= j < |trace| :: !IsClientWrite(trace[j].command)
    ensures !ViewOf(trace).wrote
  {
    if trace != [] {
      NotWritten(trace[..|trace| - 1]);
    }
  }

  /** What live view amounts to on the trace, for a camera that has it. */
  function CaptureIn(screen: Screen, remoteVersion: int, id: nat): Capture {
    if screen == Liveview && remoteVersion != -1 then Opened(id) else Closed
  }

  function PreferredMode(transport: Transport, remoteVersion: int, cameraState: int): int {
    if transport == XappWirelessComm then REMOTE_IMG_VIEW_XAPP
    else if remoteVersion != -1 || cameraState == REMOTE_ACCESS then REMOTE_MODE
    else if cameraState == MULTIPLE_TRANSFER then VIEW_MULTIPLE
    else if cameraState == FULL_ACCESS then VIEW_ALL_IMGS
    else if cameraState == PC_AUTO_SAVE then OLD_REMOTE
    else VIEW_ALL_IMGS
  }

  // ------------------------------------------------------------------------------------ what is sent

  /** Confirming the version of the chosen protocol; `echo` is a version read and written back. */
  function VersionCommands(transport: Transport, cameraState: int, remoteVersion: int, echo: int): seq<Command> {
    if transport == XappWirelessComm then []
    else if cameraState == 3 then [GetProp(0xdf23), SetProp(0xdf23, echo)]
    else if remoteVersion == -1 then [GetProp(0xdf22), SetProp(0xdf22, echo)]
    else [SetProp(0xdf24, 0x2000C)]
  }

  function ImportCommands(): (s: seq<Command>)
    ensures |s| == 7
  {
    [Vendor(ObjectInfoEx), Vendor(ThumbEx), Vendor(ImportFolders), GetProp(0xd22b), Vendor(ImportDates),
        GetProp(0xd620), GetProp(0xd621)]
  }

  function ViewCommands(): (s: seq<Command>)
    ensures |s| == 9
  {
    [SetProp(0xd226, 0), SetProp(0xd227, 0)] + ImportCommands()
  }

  /** Entering the gallery of the newer protocol; `version` is read and written back. */
  function XappGalleryCommands(version: int): seq<Command> {
    [GetProp(0xdf28), SetProp(0xdf28, version)] + ViewCommands()
  }

  /** Entering the gallery from another screen. */
  function GalleryCommands(transport: Transport, viewVersion: int, version: int): seq<Command> {
    if transport == Usb || transport == WirelessTether || viewVersion == -1 then []
    else
      [GetProp(0xd212), SetProp(0xdf00, 6), GetProp(0xd212), GetProp(0xd212),
          SetProp(0xdf01, if transport == XappWirelessComm then 20 else 11)]
      + (if transport == XappWirelessComm then XappGalleryCommands(version)
         else [GetProp(0xd212), GetProp(0xdf25), SetProp(0xdf25, 5)])
      + [GetProp(0xd212)]
  }

  /** What comes in front of the capture: the newer protocol announces live view, and every time but the
      first remote mode is set up anew. */
  function PrepareCommands(transport: Transport, remoteVersion: int, again: bool, echo: int): seq<Command> {
    (if transport == XappWirelessComm then
       [SetProp(0xdf00, 6), SetProp(0xdf01, 22), GetProp(0xdf2a), SetProp(0xdf2a, echo)]
     else [])
    + (if remoteVersion != -1 && again then
         [SetProp(0xdf00, 6), GetProp(0xd212), SetProp(0xdf01, 5), GetProp(0xdf24), SetProp(0xdf24, 0x2000C),
             GetProp(0xd212)]
       else [])
  }

  function BeginCommands(again: bool): seq<Command> {
    [OpenCapture, GetProp(0xd212)] + if again then [] else [ConnectEvents, ConnectVideo]
  }

  /** Entering live view. */
  function LiveviewCommands(transport: Transport, remoteVersion: int, again: bool, echo: int): seq<Command> {
    PrepareCommands(transport, remoteVersion, again, echo) + if remoteVersion != -1 then BeginCommands(again) else []
  }

  /** Leaving live view. */
  function EndCommands(remoteVersion: int, capture: nat): seq<Command> {
    if remoteVersion != -1 then [GetProp(0xd212), TerminateCapture(capture)] else []
  }

  function Polls(n: nat): seq<Command> {
    seq(n, _ => GetProp(0xd212))
  }

  /** What the camera has to say during the set-up, as far as the commands depend on it: how many handshakes
      and polls it takes, its versions and states, and how much of the newer gallery goes through. */
  datatype Told = Told(handshakes: nat, session: nat, polls: nat, remoteVersion: int, viewVersion: int, before: int,
                       behind: int, echo: int, galleryVersion: int, gallery: nat, capture: nat)

  /** The set-up behind the first write of the client state. */
  function TailCommands(transport: Transport, d: Told): seq<Command> {
    (if transport == XappWirelessComm then Front(XappGalleryCommands(d.galleryVersion), d.gallery) else [])
    + if d.behind == 1 then [] else ClosingCommands(transport, d)
  }

  function ClosingCommands(transport: Transport, d: Told): seq<Command> {
    VersionCommands(transport, d.behind, d.remoteVersion, d.echo)
    + (if transport == AutoSave then [SetProp(0xd227, 1)] else [])
    + [GetProp(0xd244)]
    + if d.remoteVersion != -1 && d.behind == 6 && transport != XappWirelessComm then PrimeCommands(transport, d)
      else []
  }

  /** Live view entered and left once. */
  function PrimeCommands(transport: Transport, d: Told): seq<Command> {
    LiveviewCommands(transport, d.remoteVersion, false, 0) + EndCommands(d.remoteVersion, d.capture)
    + GalleryCommands(transport, d.viewVersion, d.galleryVersion)
  }

  function Front(s: seq<Command>, n: nat): seq<Command> {
    if n < |s| then s[..n] else s
  }

  function Tries(n: nat): seq<Command> {
    if n == 1 then [Handshake] else [Handshake, Handshake]
  }

  /** The whole set-up. */
  function SetupCommands(transport: Transport, d: Told): seq<Command> {
    Tries(d.handshakes)
    + [OpenSession(d.session)]
    + SessionCommands(transport, d)
  }

  function SessionCommands(transport: Transport, d: Told): seq<Command> {
    Polls(d.polls)
    + [GetProp(0xdf22), GetProp(0xdf25), GetProp(0xdf21), GetProp(0xdf24)]
    + [SetProp(0xdf01, PreferredMode(transport, d.remoteVersion, d.before)), GetProp(0xd212)]
    + TailCommands(transport, d)
  }

  /** The states and versions are those on the trace: at the first write of the client state, at `m`, and
      behind the poll that follows it. */
  ghost predicate ToldAt(trace: seq<Step>, d: Told, m: nat) {
    && m + 2 <= |trace| && trace[m].command.SetProp? && trace[m].command.code == 0xdf01
    && (forall k | 0 <= k < m :: !(trace[k].command.SetProp? && trace[k].command.code == 0xdf01))
    && ViewOf(trace[..m]).known == d.before && ViewOf(trace[..m + 2]).known == d.behind
    && (exists k :: 0 <= k < m && trace[k].command == GetProp(0xdf24) && trace[k].reply.value == d.remoteVersion)
    && (exists k :: 0 <= k < m && trace[k].command == GetProp(0xdf25) && trace[k].reply.value == d.viewVersion)
  }

  /** How every set-up begins, by numbers. */
  lemma {:induction false} StartByNumbers(transport: Transport, d: Told)
    requires d.session == 1 && d.polls == 1
    ensures var mode := PreferredMode(transport, d.remoteVersion, d.before);
            SetupCommands(transport, d) ==
            (if d.handshakes == 1 then [Handshake] else [Handshake, Handshake])
            + ([OpenSession(1), GetProp(0xd212), GetProp(0xdf22), GetProp(0xdf25), GetProp(0xdf21), GetProp(0xdf24),
                   SetProp(0xdf01, mode), GetProp(0xd212)]
               + TailCommands(transport, d))
  {
    hide TailCommands, PreferredMode;
    assert Polls(1) == [GetProp(0xd212)];
  }

  /** An up-to-date camera over plain wireless has its version confirmed. */
  lemma {:induction false} CurrentByNumbers(d: Told)
    requires d.remoteVersion == 0x2000A && d.behind == 2
    ensures TailCommands(WirelessComm, d) == [SetProp(0xdf24, 0x2000C), GetProp(0xd244)]
  {
  }

  /** In remote state live view is entered and left once, and then the gallery is entered. */
  lemma {:induction false} RemoteByNumbers(d: Told)
    requires d.remoteVersion != -1 && d.behind == 6
    ensures d.viewVersion != -1 ==>
              TailCommands(WirelessComm, d) ==
              [SetProp(0xdf24, 0x2000C), GetProp(0xd244), OpenCapture, GetProp(0xd212), ConnectEvents, ConnectVideo,
                  GetProp(0xd212), TerminateCapture(d.capture)]
              + [GetProp(0xd212), SetProp(0xdf00, 6), GetProp(0xd212), GetProp(0xd212), SetProp(0xdf01, 11),
                  GetProp(0xd212), GetProp(0xdf25), SetProp(0xdf25, 5), GetProp(0xd212)]
    ensures d.viewVersion == -1 ==>
              TailCommands(WirelessComm, d) ==
              [SetProp(0xdf24, 0x2000C), GetProp(0xd244), OpenCapture, GetProp(0xd212), ConnectEvents, ConnectVideo,
                  GetProp(0xd212), TerminateCapture(d.capture)]
    ensures TailCommands(Usb, d) ==
            [SetProp(0xdf24, 0x2000C), GetProp(0xd244), OpenCapture, GetProp(0xd212), ConnectEvents, ConnectVideo,
                GetProp(0xd212), TerminateCapture(d.capture)]
  {
    hide GalleryCommands;
    PrimeByNumbers(WirelessComm, d);
    PrimeByNumbers(Usb, d);
    GalleryByNumbers(d.viewVersion, d.galleryVersion);
  }

  lemma {:induction false} PrimeByNumbers(t: Transport, d: Told)
    requires d.remoteVersion != -1 && d.behind == 6 && (t == WirelessComm || t == Usb)
    ensures TailCommands(t, d) ==
            [SetProp(0xdf24, 0x2000C), GetProp(0xd244), OpenCapture, GetProp(0xd212), ConnectEvents, ConnectVideo,
                GetProp(0xd212), TerminateCapture(d.capture)]
            + GalleryCommands(t, d.viewVersion, d.galleryVersion)
  {
    hide GalleryCommands, PrimeCommands;
    OnceByNumbers(t, d);
    var first := [SetProp(0xdf24, 0x2000C)] + [] + [GetProp(0xd244)];
    assert first == [SetProp(0xdf24, 0x2000C), GetProp(0xd244)];
    assert ClosingCommands(t, d) == first + PrimeCommands(t, d);
    assert TailCommands(t, d) == [] + ClosingCommands(t, d) == ClosingCommands(t, d);
    SomeMore(first, [OpenCapture, GetProp(0xd212), ConnectEvents, ConnectVideo, GetProp(0xd212),
                     TerminateCapture(d.capture)], GalleryCommands(t, d.viewVersion, d.galleryVersion));
  }

  lemma {:induction false} OnceByNumbers(t: Transport, d: Told)
    requires d.remoteVersion != -1 && (t == WirelessComm || t == Usb)
    ensures PrimeCommands(t, d) ==
            [OpenCapture, GetProp(0xd212), ConnectEvents, ConnectVideo, GetProp(0xd212), TerminateCapture(d.capture)]
            + GalleryCommands(t, d.viewVersion, d.galleryVersion)
  {
    hide GalleryCommands;
    assert LiveviewCommands(t, d.remoteVersion, false, 0)
        == [OpenCapture, GetProp(0xd212), ConnectEvents, ConnectVideo];
  }

  lemma {:induction false} GalleryByNumbers(viewVersion: int, version: int)
    ensures viewVersion != -1 ==>
              GalleryCommands(WirelessComm, viewVersion, version) ==
              [GetProp(0xd212), SetProp(0xdf00, 6), GetProp(0xd212), GetProp(0xd212), SetProp(0xdf01, 11),
                  GetProp(0xd212), GetProp(0xdf25), SetProp(0xdf25, 5), GetProp(0xd212)]
    ensures GalleryCommands(WirelessComm, -1, version) == GalleryCommands(Usb, viewVersion, version)
         == GalleryCommands(WirelessTether, viewVersion, version) == []
  {
    hide XappGalleryCommands;
  }

  /** A camera that saves automatically, an older one, and one that is sending pictures. */
  lemma {:induction false} OlderByNumbers(d: Told)
    requires d.remoteVersion == -1
    ensures d.behind == 3 ==>
              TailCommands(AutoSave, d) ==
              [GetProp(0xdf23), SetProp(0xdf23, d.echo), SetProp(0xd227, 1), GetProp(0xd244)]
    ensures d.behind == 2 ==>
              TailCommands(WirelessComm, d) == [GetProp(0xdf22), SetProp(0xdf22, d.echo), GetProp(0xd244)]
    ensures d.behind == 1 ==> TailCommands(WirelessComm, d) == TailCommands(AutoSave, d) == TailCommands(Usb, d) == []
  {
    hide PrimeCommands, XappGalleryCommands;
  }

  /** The newer protocol by numbers. */
  lemma {:induction false} XappByNumbers(d: Told)
    requires d.gallery == 11 && d.behind != 1
    ensures TailCommands(XappWirelessComm, d) ==
            [GetProp(0xdf28), SetProp(0xdf28, d.galleryVersion), SetProp(0xd226, 0), SetProp(0xd227, 0),
                Vendor(ObjectInfoEx), Vendor(ThumbEx), Vendor(ImportFolders), GetProp(0xd22b), Vendor(ImportDates),
                GetProp(0xd620), GetProp(0xd621)]
            + [GetProp(0xd244)]
  {
    hide PrimeCommands;
    WholeFront(d.galleryVersion);
  }

  /** Screens by numbers: entering live view for the first time and again, and the newer protocol's gallery. */
  lemma {:induction false} ScreensByNumbers(remoteVersion: int, viewVersion: int, echo: int, capture: nat)
    requires remoteVersion != -1 && viewVersion != -1
    ensures LiveviewCommands(XappWirelessComm, remoteVersion, false, echo) ==
            [SetProp(0xdf00, 6), SetProp(0xdf01, 22), GetProp(0xdf2a), SetProp(0xdf2a, echo), OpenCapture,
                GetProp(0xd212), ConnectEvents, ConnectVideo]
    ensures LiveviewCommands(WirelessComm, remoteVersion, true, echo) ==
            [SetProp(0xdf00, 6), GetProp(0xd212), SetProp(0xdf01, 5), GetProp(0xdf24), SetProp(0xdf24, 0x2000C),
                GetProp(0xd212), OpenCapture, GetProp(0xd212)]
    ensures LiveviewCommands(WirelessComm, -1, false, echo) == EndCommands(-1, capture) == []
    ensures EndCommands(remoteVersion, capture) == [GetProp(0xd212), TerminateCapture(capture)]
    ensures GalleryCommands(XappWirelessComm, viewVersion, echo) ==
            [GetProp(0xd212), SetProp(0xdf00, 6), GetProp(0xd212), GetProp(0xd212), SetProp(0xdf01, 20)]
            + XappGalleryCommands(echo) + [GetProp(0xd212)]
  {
    hide XappGalleryCommands;
  }

  /** The last event of a code counts, and without one the value stays. */
  lemma {:induction false} LastCounts(events: seq<Event>, code: int, otherwise: int, k: nat)
    ensures k < |events| && events[k].code == code && (forall i | k < i < |events| :: events[i].code != code) ==>
              LastValue(events, code, otherwise) == events[k].value
    ensures (forall i | 0 <= i < |events| :: events[i].code != code) ==>
              LastValue(events, code, otherwise) == otherwise
  {
    if events != [] {
      var next := if events[0].code == code then events[0].value else otherwise;
      var rest := events[1..];
      assert forall i | 0 <= i < |rest| :: rest[i] == events[i + 1];
      if forall i | 0 <= i < |events| :: events[i].code != code {
        LastCounts(rest, code, next, 0);
      } else if k == 0 {
        if forall i | 0 < i < |events| :: events[i].code != code {
          assert forall i | 0 <= i < |rest| :: rest[i].code != code;
          LastCounts(rest, code, next, 0);
        }
      } else if k < |events| {
        LastCounts(rest, code, next, k - 1);
      }
    }
  }

  /** A poll without events: that there is nothing to report is no error, and a camera without replies is gone. */
  lemma {:induction false} PollOutcomes(r: Reply, rest: seq<Reply>)
    requires r.events == []
    ensures Poll([]) == (IoError, [])
    ensures Poll([r] + rest) == (if r.rc == CheckCode then Success else r.rc, rest)
    ensures BehindPoll([r]) == IoError && (rest != [] ==> BehindPoll([r] + rest) == rest[0].rc)
  {
    assert ([r] + rest)[1..] == rest && [r][1..] == [];
  }

  /** What a poll makes of an event of the camera state: a camera that is sending pictures has the next one
      described, whether it does that or not, and any other state is only taken note of. */
  lemma {:induction false} PollByNumbers(state: int, r: Reply)
    ensures var rs := [Reply(Success, 0, [Event(0xdf00, state)]), r];
            Poll(rs) ==
            if state != 1 then (Success, [r])
            else if r.rc == Success || r.rc == CheckCode then (Success, []) else (r.rc, [])
  {
    var events := [Event(0xdf00, state)];
    var rs := [Reply(Success, 0, events), r];
    assert events[1..] == [] && rs[1..] == [r] && [r][1..] == [];
    assert AfterEvents([], []) == (Success, []) && AfterEvents([], [r]) == (Success, [r]);
    assert Poll(rs) == AfterEvents(events, [r]);
  }

  /** The mode that is asked for, by numbers. */
  lemma {:induction false} ModesByNumbers(remoteVersion: int, state: int)
    ensures PreferredMode(XappWirelessComm, remoteVersion, state) == 20
    ensures forall t | t != XappWirelessComm ::
              PreferredMode(t, remoteVersion, state) ==
              if remoteVersion != -1 || state == 6 then 5 else if state == 1 then 1 else if state == 3 then 3 else 2
  {
  }

  lemma {:induction false} SameSession(transport: Transport, d: Told, e: Told)
    requires e == d.(handshakes := e.handshakes, session := e.session)
    ensures SessionCommands(transport, d) == SessionCommands(transport, e)
  {
    hide VersionCommands, LiveviewCommands, EndCommands, GalleryCommands, XappGalleryCommands, PreferredMode;
  }

  lemma {:induction false} SameTail(transport: Transport, d: Told, e: Told)
    requires e == d.(polls := e.polls, before := e.before)
    ensures TailCommands(transport, d) == TailCommands(transport, e)
  {
    hide VersionCommands, LiveviewCommands, EndCommands, GalleryCommands, XappGalleryCommands;
  }

  /** Over the older protocol neither list depends on a version. */
  lemma {:induction false} PrimeIs(transport: Transport, remoteVersion: int, echo: int, version: int)
    requires transport != XappWirelessComm
    ensures forall again :: LiveviewCommands(transport, remoteVersion, again, echo)
                            == LiveviewCommands(transport, remoteVersion, again, 0)
    ensures forall viewVersion, v :: GalleryCommands(transport, viewVersion, version)
                                     == GalleryCommands(transport, viewVersion, v)
  {
  }

  /** A trace without a write of the client state holds none. */
  lemma {:induction false} NotWrote(trace: seq<Step>)
    requires !ViewOf(trace).wrote
    ensures forall k | 0 <= k < |trace| :: !IsClientWrite(trace[k].command)
  {
    if trace != [] {
      NotWrote(trace[..|trace| - 1]);
    }
  }

  lemma {:induction false} Founded(trace: seq<Step>, written: seq<Step>, read: seq<Step>, d: Told)
    requires read <= written <= trace && !ViewOf(read).wrote && |written| >= |read| + 2
    requires written[|read|].command.SetProp? && written[|read|].command.code == 0xdf01
    requires ViewOf(read).known == d.before && ViewOf(written[..|read| + 2]).known == d.behind
    requires |read| >= 4 && read[|read| - 1].command == GetProp(0xdf24)
    requires read[|read| - 1].reply.value == d.remoteVersion
    requires read[|read| - 3].command == GetProp(0xdf25) && read[|read| - 3].reply.value == d.viewVersion
    ensures ToldAt(trace, d, |read|)
  {
    hide ViewOf;
    NotWrote(read);
    var m := |read|;
    assert trace[..m] == read && trace[..m + 2] == written[..m + 2];
    assert forall k | 0 <= k < m :: trace[k] == read[k];
    assert trace[m - 1] == read[m - 1] && trace[m - 3] == read[m - 3] && trace[m] == written[m];
  }

  lemma {:induction false} WholeFront(version: int)
    ensures Front(XappGalleryCommands(version), 11) == XappGalleryCommands(version)
  {
  }

  // ------------------------------------------------------------------------------------ the runtime

  class PtpRuntime {
    var session: nat
    var transaction: nat
    var replies: seq<Reply>
    var cancels: seq<bool>
    ghost var trace: seq<Step>

    var transport: Transport
    var cameraState: int
    var selectedImgsMode: int
    var numObjects: int
    var getObjectVersion: int
    var imageGetVersion: int
    var remoteVersion: int
    var remoteImageViewVersion: int
    var remoteImageViewExVersion: int
    var sortByOldestFirst: bool
    var openedLiveviewSockets: bool
    var openCaptureTransId: nat

    constructor (transport: Transport, replies: seq<Reply>, cancels: seq<bool>)
      ensures trace == [] && !openedLiveviewSockets && this.transport == transport && this.replies == replies
      ensures remoteVersion == 0 && remoteImageViewVersion == 0
    {
      session, transaction, this.replies, this.cancels, trace := 0, 0, replies, cancels, [];
      this.transport := transport;
      cameraState, selectedImgsMode, numObjects, getObjectVersion, imageGetVersion := 0, 0, 0, 0, 0;
      remoteVersion, remoteImageViewVersion, remoteImageViewExVersion := 0, 0, 0;
      sortByOldestFirst, openedLiveviewSockets, openCaptureTransId := false, false, 0;
    }

    ghost function Seen(): View
      reads this`trace
    {
      ViewOf(trace)
    }

    /** The flag that the sockets are open is right, and each was opened at most once. */
    ghost predicate Sockets()
      reads this`trace, this`openedLiveviewSockets
    {
      && Seen().eventSockets == (if openedLiveviewSockets then 1 else 0)
      && Seen().videoSockets == (if openedLiveviewSockets then 1 else 0)
    }

    /** A capture is open, under the remembered number, if and only if the screen is live view. */
    ghost predicate Aligned(screen: Screen)
      reads this`trace, this`openedLiveviewSockets, this`remoteVersion, this`openCaptureTransId
    {
      Seen().capture == CaptureIn(screen, remoteVersion, openCaptureTransId) && Sockets()
    }

    /** Sends a command under the next transaction; a camera that has no more replies is gone. */
    method Send(c: Command) returns (r: Reply)
      modifies `transaction, `replies, `trace
      ensures trace == old(trace) + [Step(c, old(transaction), r)]
      ensures Seen() == Next(old(Seen()), Step(c, old(transaction), r))
      ensures transaction == old(transaction) + if c.Handshake? || c.ConnectEvents? || c.ConnectVideo? then 0 else 1
      ensures old(replies) == [] ==> r.rc == IoError && replies == []
      ensures old(replies) != [] ==> r == old(replies)[0] && replies == old(replies)[1..]
      ensures Follows(old(trace), trace, if Failed(Step(c, old(transaction), r)) then r.rc else Success)
    {
      r := Reply(IoError, 0, []);
      if replies != [] {
        r, replies := replies[0], replies[1..];
      }
      trace := trace + [Step(c, transaction, r)];
      if !c.Handshake? && !c.ConnectEvents? && !c.ConnectVideo? {
        transaction := transaction + 1;
      }
    }

    method Cancelled() returns (b: bool)
      modifies `cancels
    {
      b := false;
      if cancels != [] {
        b, cancels := cancels[0], cancels[1..];
      }
    }

    // ------------------------------------------------------------------------------------- events

    /** The events that the first command from `k` on came back with. */
    ghost function EventsAt(k: nat): seq<Event>
      requires k < |trace|
      reads `trace
    {
      if trace[k].reply.rc == Success then trace[k].reply.events else []
    }

    /** Polls the list of events and takes over the state they report. */
    method GetEvents() returns (rc: Rc)
      modifies `transaction, `replies, `trace, `cameraState, `selectedImgsMode, `numObjects
      ensures Seen() == old(Seen()).(known := Seen().known, sent := old(Seen()).sent + [GetProp(0xd212)])
      ensures old(trace) < trace && trace[|old(trace)|].command == GetProp(0xd212)
      ensures forall k | |old(trace)| < k < |trace| :: trace[k].command == ObjectInfo(1)
      ensures ViewOf(trace[..|old(trace)| + 1]).known == Seen().known
      ensures (rc, replies) == Poll(old(replies)) && Follows(old(trace), trace, rc)
      ensures |replies| <= old(|replies|) && (rc == Success ==> |replies| < old(|replies|))
      ensures rc == Success ==>
                && cameraState == LastValue(EventsAt(|old(trace)|), 0xdf00, old(cameraState))
                && selectedImgsMode == LastValue(EventsAt(|old(trace)|), 0xd220, old(selectedImgsMode))
                && numObjects == LastValue(EventsAt(|old(trace)|), 0xd222, old(numObjects))
      ensures rc == Success && old(cameraState == Seen().known) ==> cameraState == Seen().known
    {
      var r := Send(GetProp(EVENTS_LIST));
      ghost var polled := trace;
      assert polled[..|old(trace)| + 1] == polled;
      if r.rc == CheckCode {
        return Success;
      } else if r.rc != Success {
        return r.rc;
      }
      rc := TakeEvents(r.events);
      assert trace[..|polled|] == polled;
    }

    method TakeEvents(events: seq<Event>) returns (rc: Rc)
      modifies `transaction, `replies, `trace, `cameraState, `selectedImgsMode, `numObjects
      ensures Seen() == old(Seen()) && Follows(old(trace), trace, rc)
      ensures forall k | |old(trace)| <= k < |trace| :: trace[k].command == ObjectInfo(1)
      ensures (rc, replies) == AfterEvents(events, old(replies)) && |replies| <= old(|replies|)
      ensures rc == Success ==>
                && cameraState == LastValue(events, CAMERA_STATE, old(cameraState))
                && selectedImgsMode == LastValue(events, SELECTED_IMGS_MODE, old(selectedImgsMode))
                && numObjects == LastValue(events, OBJECT_COUNT, old(numObjects))
    {
      hide ViewOf, Follows;
      FollowChain();
      var i := 0;
      rc := Success;
      while i < |events|
        invariant 0 <= i <= |events|
        invariant Seen() == old(Seen()) && Follows(old(trace), trace, Success) && |replies| <= old(|replies|)
        invariant forall k | |old(trace)| <= k < |trace| :: trace[k].command == ObjectInfo(1)
        invariant AfterEvents(events[i..], replies) == AfterEvents(events, old(replies))
        invariant LastValue(events[i..], CAMERA_STATE, cameraState) == LastValue(events, CAMERA_STATE, old(cameraState))
        invariant LastValue(events[i..], SELECTED_IMGS_MODE, selectedImgsMode)
               == LastValue(events, SELECTED_IMGS_MODE, old(selectedImgsMode))
        invariant LastValue(events[i..], OBJECT_COUNT, numObjects) == LastValue(events, OBJECT_COUNT, old(numObjects))
      {
        var e := events[i];
        assert events[i..][1..] == events[i + 1..];
        if e.code == SELECTED_IMGS_MODE {
          selectedImgsMode := e.value;
        } else if e.code == OBJECT_COUNT {
          numObjects := e.value;
        } else if e.code == CAMERA_STATE {
          cameraState := e.value;
          if cameraState == MULTIPLE_TRANSFER {
            rc := QueueFileForDownload(1);
            if rc != Success {
              return;
            }
          }
        }
        i := i + 1;
      }
      return Success;
    }

    method QueueFileForDownload(handle: nat) returns (rc: Rc)
      modifies `transaction, `replies, `trace
      ensures Seen() == old(Seen()) && Follows(old(trace), trace, rc)
      ensures |trace| == |old(trace)| + 1 && trace[|old(trace)|].command == ObjectInfo(handle)
      ensures old(replies) == [] ==> rc == IoError && replies == []
      ensures old(replies) != [] ==>
                && rc == (if old(replies)[0].rc == CheckCode then Success else old(replies)[0].rc)
                && replies == old(replies)[1..]
    {
      var r := Send(ObjectInfo(handle));
      rc := if r.rc == CheckCode then Success else r.rc;
    }

    // ------------------------------------------------------------------------------------- set-up

    method WriteProp(code: int, value: int) returns (rc: Rc)
      modifies `transaction, `replies, `trace
      ensures Follows(old(trace), trace, rc)
      ensures |trace| == |old(trace)| + 1
      ensures trace == old(trace) + [Step(SetProp(code, value), old(transaction), trace[|old(trace)|].reply)]
      ensures Seen() == old(Seen()).(wrote := old(Seen()).wrote || code == CLIENT_STATE, guarded := Seen().guarded,
                                     sent := old(Seen()).sent + [SetProp(code, value)])
      ensures code != CLIENT_STATE ==> Seen().guarded == old(Seen()).guarded
      ensures old(Seen()).wrote ==> Seen().guarded == old(Seen()).guarded
      ensures rc == trace[|old(trace)|].reply.rc
    {
      var r := Send(SetProp(code, value));
      rc := r.rc;
    }

    method ReadProp(code: int) returns (rc: Rc, value: int)
      requires code != EVENTS_LIST && code != STORAGE_ID
      modifies `transaction, `replies, `trace
      ensures Follows(old(trace), trace, rc)
      ensures |trace| == |old(trace)| + 1
      ensures trace == old(trace) + [Step(GetProp(code), old(transaction), trace[|old(trace)|].reply)]
      ensures Seen() == old(Seen()).(sent := old(Seen()).sent + [GetProp(code)])
      ensures rc == trace[|old(trace)|].reply.rc && value == trace[|old(trace)|].reply.value
    {
      var r := Send(GetProp(code));
      rc, value := r.rc, r.value;
    }

    /** The number of the card; a camera need not have one. */
    method ReadStorageId() returns (rc: Rc)
      modifies `transaction, `replies, `trace
      ensures Seen() == old(Seen()).(sent := old(Seen()).sent + [GetProp(0xd244)])
      ensures old(trace) < trace && Follows(old(trace), trace, rc)
    {
      var r := Send(GetProp(STORAGE_ID));
      rc := if r.rc == CheckCode then Success else r.rc;
    }

    method SendVendor(e: Extension) returns (rc: Rc)
      modifies `transaction, `replies, `trace
      ensures Seen() == old(Seen()).(sent := old(Seen()).sent + [Vendor(e)]) && Follows(old(trace), trace, rc)
    {
      var r := Send(Vendor(e));
      rc := r.rc;
    }

    /** Tells the camera what mode the client wants. */
    method ConfigInitMode() returns (rc: Rc)
      modifies `transaction, `replies, `trace, `cameraState, `selectedImgsMode, `numObjects
      ensures old(trace) < trace
      ensures trace[|old(trace)|].command == SetProp(0xdf01, old(PreferredMode(transport, remoteVersion, cameraState)))
      ensures Seen() == old(Seen()).(wrote := true, guarded := Seen().guarded, known := Seen().known,
                sent := Seen().sent)
      ensures rc == Success ==>
                && Seen().sent == old(Seen()).sent
                     + [SetProp(0xdf01, old(PreferredMode(transport, remoteVersion, cameraState))), GetProp(0xd212)]
                && |trace| >= |old(trace)| + 2 && ViewOf(trace[..|old(trace)| + 2]).known == Seen().known
      ensures Seen().guarded == (old(Seen()).guarded
                && (old(Seen()).wrote || (old(Seen()).known != -1 && old(Seen()).known != WAIT_FOR_ACCESS)))
      ensures rc == Success && old(cameraState == Seen().known) ==> cameraState == Seen().known
      ensures Follows(old(trace), trace, rc)
    {
      var mode := 0;
      if transport == XappWirelessComm {
        mode := REMOTE_IMG_VIEW_XAPP;
      } else if remoteVersion != -1 || cameraState == REMOTE_ACCESS {
        mode := REMOTE_MODE;
      } else if cameraState == MULTIPLE_TRANSFER {
        mode := VIEW_MULTIPLE;
      } else if cameraState == FULL_ACCESS {
        mode := VIEW_ALL_IMGS;
      } else if cameraState == PC_AUTO_SAVE {
        mode := OLD_REMOTE;
      } else {
        mode := VIEW_ALL_IMGS;
      }
      ghost var before := Seen().sent;
      var r := Send(SetProp(CLIENT_STATE, mode));
      if r.rc != Success {
        return r.rc;
      }
      rc := GetEvents();
      assert before + [SetProp(CLIENT_STATE, mode)] + [GetProp(0xd212)]
          == before + [SetProp(CLIENT_STATE, mode), GetProp(0xd212)];
    }

    /** The property whose version the client confirms. */
    function VersionProp(): int
      reads `cameraState, `remoteVersion
    {
      if cameraState == PC_AUTO_SAVE then AUTO_SAVE_VERSION
      else if remoteVersion == -1 then GET_OBJECT_VERSION
      else REMOTE_VERSION
    }

    /** Confirms the camera's version of the chosen protocol, or asks for the client's own. */
    method ConfigVersion() returns (rc: Rc, ghost echo: int)
      modifies `transaction, `replies, `trace
      ensures Seen() == old(Seen()).(sent := Seen().sent) && old(trace) <= trace
      ensures transport == XappWirelessComm ==> trace == old(trace) && rc == Success
      ensures rc == Success ==>
                Seen().sent == old(Seen()).sent + VersionCommands(transport, cameraState, remoteVersion, echo)
      ensures rc == Success && transport != XappWirelessComm ==>
                && |trace| > |old(trace)|
                && trace[|trace| - 1].command == SetProp(VersionProp(),
                     if VersionProp() == REMOTE_VERSION then CLIENT_REMOTE_VERSION else trace[|old(trace)|].reply.value)
                && (VersionProp() != REMOTE_VERSION ==> trace[|old(trace)|].command == GetProp(VersionProp()))
      ensures Follows(old(trace), trace, rc)
    {
      echo := 0;
      ghost var before := Seen().sent;
      if transport == XappWirelessComm {
        assert before + [] == before;
        return Success, echo;
      }
      var version;
      if cameraState == PC_AUTO_SAVE {
        rc, version := EchoVersion(AUTO_SAVE_VERSION);
        echo := version;
      } else if remoteVersion == -1 {
        rc, version := EchoVersion(GET_OBJECT_VERSION);
        echo := version;
      } else {
        rc := WriteProp(REMOTE_VERSION, CLIENT_REMOTE_VERSION);
      }
    }

    /** Writes a property back as it was read. */
    method EchoVersion(code: int) returns (rc: Rc, value: int)
      requires code == GET_OBJECT_VERSION || code == AUTO_SAVE_VERSION
      modifies `transaction, `replies, `trace
      ensures Seen() == old(Seen()).(sent := Seen().sent) && old(trace) < trace
      ensures rc == Success ==>
                && Seen().sent == old(Seen()).sent + [GetProp(code), SetProp(code, value)]
                && trace[|old(trace)|].command == GetProp(code) && trace[|old(trace)|].reply.value == value
                && trace[|trace| - 1].command == SetProp(code, value)
      ensures Follows(old(trace), trace, rc)
    {
      hide ViewOf, Follows;
      FollowChain();
      ghost var before := Seen().sent;
      rc, value := ReadProp(code);
      if rc != Success { return; }
      ghost var read := trace;
      rc := WriteProp(code, value);
      assert trace[..|read|] == read;
      OneMore(before, [GetProp(code)], SetProp(code, value));
    }

    /** Enters the gallery of the newer protocol; `n` is how many of its commands were sent. */
    method XappConfigGallery() returns (rc: Rc, ghost n: nat)
      modifies `transaction, `replies, `trace, `remoteImageViewExVersion
      ensures Seen() == old(Seen()).(sent := old(Seen()).sent + Front(XappGalleryCommands(remoteImageViewExVersion), n))
      ensures rc == Success ==> n == 11
      ensures Follows(old(trace), trace, rc)
    {
      hide ViewOf, Follows, ViewCommands;
      FollowChain();
      var value;
      ghost var before := Seen().sent;
      rc, value := ReadProp(PHOTO_VIEW_EX_VERSION);
      n := 1;
      assert XappGalleryCommands(remoteImageViewExVersion)[..1] == [GetProp(0xdf28)];
      if rc != Success { return; }
      remoteImageViewExVersion := value;
      ghost var all := XappGalleryCommands(value);
      assert Seen().sent == before + all[..1];
      NextOf(before, all, 1);
      rc := WriteProp(PHOTO_VIEW_EX_VERSION, value);
      n := 2;
      if rc != Success { return; }
      ghost var k;
      rc, k := ConfigViews();
      n := 2 + k;
      SomeMore(before, all[..2], ViewCommands()[..k]);
      assert all == all[..2] + ViewCommands();
      assert all[..n] == all[..2] + ViewCommands()[..k];
    }

    method ConfigViews() returns (rc: Rc, ghost n: nat)
      modifies `transaction, `replies, `trace
      ensures Seen() == old(Seen()).(sent := Seen().sent) && n <= 9 && (rc == Success ==> n == 9)
      ensures Seen().sent == old(Seen()).sent + ViewCommands()[..n]
      ensures Follows(old(trace), trace, rc)
    {
      hide ViewOf, Follows, ImportCommands;
      FollowChain();
      ghost var before, all := Seen().sent, ViewCommands();
      AllOf(before, all);
      NextOf(before, all, 0);
      rc := WriteProp(COMPRESS_SMALL, 0);
      n := 1;
      if rc != Success { return; }
      NextOf(before, all, 1);
      rc := WriteProp(CORRECT_FILE_SIZE, 0);
      n := 2;
      if rc != Success { return; }
      ghost var k;
      rc, k := ReadImports();
      n := 2 + k;
      SomeMore(before, all[..2], ImportCommands()[..k]);
      assert all[..n] == all[..2] + ImportCommands()[..k];
    }

    method ReadImports() returns (rc: Rc, ghost n: nat)
      modifies `transaction, `replies, `trace
      ensures Seen() == old(Seen()).(sent := Seen().sent) && n <= 7 && (rc == Success ==> n == 7)
      ensures Seen().sent == old(Seen()).sent + ImportCommands()[..n]
      ensures Follows(old(trace), trace, rc)
    {
      hide ViewOf, Follows;
      FollowChain();
      ghost var before, all := Seen().sent, ImportCommands();
      AllOf(before, all);
      rc, n := ReadFolders();
      if rc != Success { return; }
      var value;
      NextOf(before, all, 4);
      rc := SendVendor(ImportDates);
      n := 5;
      if rc != Success { return; }
      NextOf(before, all, 5);
      rc, value := ReadProp(IMPORT_OBJECT_COUNT);
      n := 6;
      if rc != Success { return; }
      NextOf(before, all, 6);
      rc, value := ReadProp(IMPORT_OBJECT_HANDLES);
      n := 7;
    }

    method ReadFolders() returns (rc: Rc, ghost n: nat)
      modifies `transaction, `replies, `trace
      ensures Seen() == old(Seen()).(sent := Seen().sent) && n <= 4 && (rc == Success ==> n == 4)
      ensures Seen().sent == old(Seen()).sent + ImportCommands()[..n]
      ensures Follows(old(trace), trace, rc)
    {
      hide ViewOf, Follows;
      FollowChain();
      ghost var before, all := Seen().sent, ImportCommands();
      AllOf(before, all);
      var value;
      NextOf(before, all, 0);
      rc := SendVendor(ObjectInfoEx);
      n := 1;
      if rc != Success { return; }
      NextOf(before, all, 1);
      rc := SendVendor(ThumbEx);
      n := 2;
      if rc != Success { return; }
      NextOf(before, all, 2);
      rc := SendVendor(ImportFolders);
      n := 3;
      if rc != Success { return; }
      NextOf(before, all, 3);
      rc, value := ReadProp(UNKNOWN_D22B);
      n := 4;
    }

    /** Connects and opens the session, with one more try if the first fails; `tries` is the number of
        handshakes. */
    method Open() returns (rc: Rc, ghost tries: nat)
      modifies `session, `transaction, `replies, `trace, `cancels
      ensures Seen() == old(Seen()).(sent := Seen().sent) && |old(trace)| < |trace| <= |old(trace)| + 3
      ensures trace[|old(trace)|].command == Handshake
      ensures forall k | |old(trace)| <= k < |trace| ::
                trace[k].command == Handshake || (k == |trace| - 1 && trace[k].command == OpenSession(session))
      ensures |trace| == |old(trace)| + 3 ==> trace[|trace| - 1].command != Handshake
      ensures rc == Success ==>
                && transaction == 2 && session == old(session) + 1 && |trace| > |old(trace)|
                && trace[|trace| - 1].command == OpenSession(session) && trace[|trace| - 1].transaction == 1
                && Seen().sent == old(Seen()).sent + Tries(tries) + [OpenSession(session)]
      ensures trace[|trace| - 1].command.OpenSession? ==>
                (rc == Success <==> SessionStands(trace[|trace| - 1].reply))
      ensures Follows(old(trace), trace, rc)
    {
      hide ViewOf, ErrorsIn;
      tries := 1;
      var r := Send(Handshake);
      if r.rc == RuntimeError {
        var cancel := Cancelled();
        if cancel { return Canceled, tries; }
        r := Send(Handshake);
        tries := 2;
      } else if r.rc != Success {
        var cancel := Cancelled();
        if cancel { return Canceled, tries; }
        cancel := Cancelled();
        if cancel { return Canceled, tries; }
        r := Send(Handshake);
        tries := 2;
      }
      if r.rc != Success { return r.rc, tries; }
      assert Seen().sent == old(Seen()).sent + Tries(tries);
      rc := BeginSession();
    }

    /** The session is open, or was so before. */
    ghost predicate SessionStands(r: Reply) {
      r.rc == Success || (r.rc == CheckCode && r.value == 0x201E)
    }

    /** Opens the next session, with transaction 1. */
    method BeginSession() returns (rc: Rc)
      modifies `session, `transaction, `replies, `trace
      ensures Seen() == old(Seen()).(sent := old(Seen()).sent + [OpenSession(session)])
      ensures |trace| == |old(trace)| + 1 && Follows(old(trace), trace, rc)
      ensures trace == old(trace) + [Step(OpenSession(session), 1, trace[|old(trace)|].reply)]
      ensures rc == Success <==> SessionStands(trace[|old(trace)|].reply)
      ensures session == old(session) + 1 && transaction == 2
    {
      session := session + 1;
      transaction := 1;
      var r := Send(OpenSession(session));
      rc := if r.rc == CheckCode && r.value == SESSION_ALREADY_OPENED then Success else r.rc;
    }

    /** Waits until the camera reports a state other than waiting for access; `n` is the number of polls. */
    method AwaitAccess() returns (rc: Rc, ghost n: nat)
      requires cameraState == Seen().known
      modifies `transaction, `replies, `trace, `cameraState, `selectedImgsMode, `numObjects
      ensures Seen() == old(Seen()).(known := Seen().known, sent := old(Seen()).sent + Polls(n)) && n > 0
      ensures rc == Success ==> cameraState == Seen().known && cameraState != -1 && cameraState != 0
      ensures Follows(old(trace), trace, rc)
    {
      hide ViewOf;
      rc := GetEvents();
      n := 1;
      assert Polls(1) == [GetProp(0xd212)];
      if rc != Success { return; }
      while cameraState == WAIT_FOR_ACCESS || cameraState == -1
        invariant Seen() == old(Seen()).(known := Seen().known, sent := old(Seen()).sent + Polls(n)) && n > 0
        invariant cameraState == Seen().known && rc == Success
        invariant Follows(old(trace), trace, Success)
        decreases |replies|
      {
        rc := GetEvents();
        assert Polls(n + 1) == Polls(n) + [GetProp(0xd212)];
        n := n + 1;
        if rc != Success { return; }
      }
    }

    /** Reads the versions of the camera's protocols; newer cameras show the oldest picture first. */
    method ReadVersions() returns (rc: Rc)
      modifies `transaction, `replies, `trace, `getObjectVersion, `remoteImageViewVersion, `sortByOldestFirst,
          `imageGetVersion, `remoteVersion
      ensures Seen() == old(Seen()).(sent := Seen().sent)
      ensures rc == Success ==>
                && |trace| == |old(trace)| + 4
                && IsRead(|old(trace)|, 0xdf22, getObjectVersion)
                && IsRead(|old(trace)| + 1, 0xdf25, remoteImageViewVersion)
                && IsRead(|old(trace)| + 2, 0xdf21, imageGetVersion)
                && IsRead(|old(trace)| + 3, 0xdf24, remoteVersion)
                && Seen().sent == old(Seen()).sent
                     + [GetProp(0xdf22), GetProp(0xdf25), GetProp(0xdf21), GetProp(0xdf24)]
                && sortByOldestFirst == (old(sortByOldestFirst) || remoteImageViewVersion >= 5)
      ensures Follows(old(trace), trace, rc)
    {
      hide ViewOf, Follows;
      FollowChain();
      ghost var before, start := Seen().sent, trace;
      var first, second;
      rc, first, second := ReadTwo(GET_OBJECT_VERSION, REMOTE_GET_OBJECT_VERSION);
      getObjectVersion := first;
      if rc != Success { return; }
      remoteImageViewVersion := second;
      if remoteImageViewVersion >= 5 {
        sortByOldestFirst := true;
      }
      ghost var middle := trace;
      rc, first, second := ReadTwo(IMAGE_GET_VERSION, REMOTE_VERSION);
      imageGetVersion := first;
      if rc != Success { return; }
      remoteVersion := second;
      assert forall k | 0 <= k < |middle| :: trace[k] == middle[k];
      SomeMore(before, [GetProp(0xdf22), GetProp(0xdf25)], [GetProp(0xdf21), GetProp(0xdf24)]);
    }

    /** Reads two properties, the second only if the first could be read. */
    method ReadTwo(one: int, two: int) returns (rc: Rc, first: int, second: int)
      requires one != EVENTS_LIST && one != STORAGE_ID && two != EVENTS_LIST && two != STORAGE_ID
      modifies `transaction, `replies, `trace
      ensures Seen() == old(Seen()).(sent := Seen().sent)
      ensures rc == Success ==>
                && |trace| == |old(trace)| + 2 && IsRead(|old(trace)|, one, first)
                    && IsRead(|old(trace)| + 1, two, second)
                && Seen().sent == old(Seen()).sent + [GetProp(one), GetProp(two)]
      ensures Follows(old(trace), trace, rc)
    {
      hide ViewOf, Follows;
      FollowChain();
      ghost var before := Seen().sent;
      second := 0;
      rc, first := ReadProp(one);
      if rc != Success { return; }
      rc, second := ReadProp(two);
      OneMore(before, [GetProp(one)], GetProp(two));
    }

    /** At `k` the trace reads that value of that property. */
    ghost predicate IsRead(k: nat, code: int, value: int)
      reads `trace
    {
      k < |trace| && trace[k].command == GetProp(code) && trace[k].reply.value == value
    }

    /** The camera was asked for that property and gave that value. */
    ghost predicate HasRead(code: int, value: int)
      reads `trace
    {
      exists k: nat :: IsRead(k, code, value)
    }

    /** Brings a fresh connection up to the image gallery; on success `d` is what the camera told. */
    method Setup() returns (rc: Rc, ghost d: Told)
      requires trace == [] && !openedLiveviewSockets
      modifies this
      ensures Seen().guarded && Seen().capture != Broken
      ensures rc == Success ==> Aligned(Gallery)
      ensures trace != [] && trace[0].command == Handshake
      ensures rc == Success && transport != WirelessTether ==>
                && Seen().wrote && HasRead(0xdf24, remoteVersion)
                && Seen().sent == SetupCommands(transport, d) && d.remoteVersion == remoteVersion && d.polls > 0
                && exists m: nat :: ToldAt(trace, d, m)
      ensures rc == Success && old(transport) != WirelessTether ==>
                transport == if old(transport) == XappWirelessComm && remoteVersion < 0x20007 then WirelessComm
                             else old(transport)
      ensures rc == Success && transport == WirelessTether ==>
                Seen().sent == Tries(d.handshakes) + [OpenSession(session)]
      ensures rc == Success && ErrorsIn(trace) == ErrorsIn([]) && transport != WirelessTether ==> d.gallery == 11
      ensures Follows(old(trace), trace, rc)
    {
      assert Seen() == View(Closed, 0, 0, false, true, -1, []);
      hide ViewOf, Follows, SessionCommands, SetupCommands, ErrorsIn, ToldAt;
      FollowChain();
      ghost var tries, told;
      d := Told(0, 0, 0, 0, 0, 0, 0, 0, 0, 0, 0);
      rc, tries := Open();
      d := d.(handshakes := tries);
      ghost var begun := trace;
      assert [] + Tries(tries) == Tries(tries);
      if rc != Success || transport == WirelessTether { return; }
      rc, told := SetupSession();
      d := told.(handshakes := tries, session := session);
      if rc == Success {
        TellAll(told, d);
        ErrorsBetween([], begun, trace, Success);
      }
    }

    lemma {:induction false} TellAll(told: Told, d: Told)
      requires d == told.(handshakes := d.handshakes, session := d.session)
      requires exists m: nat :: ToldAt(trace, told, m)
      requires Seen().sent == [] + Tries(d.handshakes) + [OpenSession(d.session)] + SessionCommands(transport, told)
      ensures exists m: nat :: ToldAt(trace, d, m)
      ensures Seen().sent == SetupCommands(transport, d)
    {
      hide ViewOf, SessionCommands, IsClientWrite;
      var m: nat :| ToldAt(trace, told, m);
      assert ToldAt(trace, d, m);
      SameSession(transport, told, d);
      assert [] + Tries(d.handshakes) == Tries(d.handshakes);
    }

    /** The part of the set-up behind opening the session. */
    method SetupSession() returns (rc: Rc, ghost d: Told)
      requires Seen().guarded && !Seen().wrote && Seen().known == -1 && Aligned(Gallery) && !openedLiveviewSockets
      modifies this
      ensures Seen().guarded && Seen().capture != Broken && session == old(session)
      ensures rc == Success ==> Seen().wrote && Aligned(Gallery) && HasRead(0xdf24, remoteVersion)
      ensures rc == Success ==>
                && Seen().sent == old(Seen()).sent + SessionCommands(transport, d)
                && transport == NewTransport(old(transport), remoteVersion)
                && d.remoteVersion == remoteVersion && d.polls > 0 && exists m: nat :: ToldAt(trace, d, m)
      ensures rc == Success && ErrorsIn(trace) == ErrorsIn(old(trace)) ==> d.gallery == 11
      ensures Follows(old(trace), trace, rc)
    {
      hide ViewOf, Follows, TailCommands, ErrorsIn;
      FollowChain();
      d := Told(0, 0, 0, 0, 0, 0, 0, 0, 0, 0, 0);
      ghost var n;
      ghost var start := Seen().sent;
      rc, n := ReadCamera();
      if rc != Success { return; }
      ghost var read, before := trace, cameraState;
      ghost var done := Polls(n) + [GetProp(0xdf22), GetProp(0xdf25), GetProp(0xdf21), GetProp(0xdf24)];
      SomeMore(start, Polls(n), [GetProp(0xdf22), GetProp(0xdf25), GetProp(0xdf21), GetProp(0xdf24)]);
      rc := ConfigInitMode();
      if rc != Success { return; }
      ghost var written := trace;
      ghost var mode := [SetProp(0xdf01, PreferredMode(transport, remoteVersion, before)), GetProp(0xd212)];
      SomeMore(start, done, mode);
      rc, d := SetupGallery();
      if rc == Success {
        d := TellSession(d, n, before, start, done + mode);
        Founded(trace, written, read, d);
        assert IsRead(|read| - 1, 0xdf24, remoteVersion);
        ErrorsBetween(old(trace), written, trace, Success);
      }
    }

    lemma {:induction false} TellSession(d0: Told, n: nat, before: int, start: seq<Command>, done: seq<Command>)
      returns (d: Told)
      requires done == Polls(n) + [GetProp(0xdf22), GetProp(0xdf25), GetProp(0xdf21), GetProp(0xdf24)]
                         + [SetProp(0xdf01, PreferredMode(transport, d0.remoteVersion, before)), GetProp(0xd212)]
      requires Seen().sent == start + done + TailCommands(transport, d0)
      ensures d == d0.(polls := n, before := before)
      ensures Seen().sent == start + SessionCommands(transport, d)
    {
      hide PreferredMode, Polls, ClosingCommands, XappGalleryCommands;
      d := d0.(polls := n, before := before);
      assert TailCommands(transport, d) == TailCommands(transport, d0) by { SameTail(transport, d0, d); }
      SomeMore(start, done, TailCommands(transport, d));
    }

    /** What an older camera takes for the newer protocol is the older one. */
    static function NewTransport(t: Transport, remoteVersion: int): Transport {
      if t == XappWirelessComm && remoteVersion < 0x20007 then WirelessComm else t
    }

    /** Waits for access and reads the versions; `n` is the number of polls. */
    method ReadCamera() returns (rc: Rc, ghost n: nat)
      requires Seen().known == -1
      modifies this
      ensures Seen() == old(Seen()).(known := Seen().known, sent := Seen().sent)
      ensures openedLiveviewSockets == old(openedLiveviewSockets) && session == old(session) && n > 0
      ensures rc == Success ==>
                && cameraState == Seen().known && cameraState != -1 && cameraState != 0
                && |trace| >= |old(trace)| + 4
                && IsRead(|trace| - 1, 0xdf24, remoteVersion) && IsRead(|trace| - 3, 0xdf25, remoteImageViewVersion)
                && transport == NewTransport(old(transport), remoteVersion)
                && Seen().sent == old(Seen()).sent + Polls(n)
                     + [GetProp(0xdf22), GetProp(0xdf25), GetProp(0xdf21), GetProp(0xdf24)]
      ensures !old(Seen()).wrote ==> !Seen().wrote
      ensures Follows(old(trace), trace, rc)
    {
      hide ViewOf, Follows, Polls;
      FollowChain();
      cameraState, numObjects, selectedImgsMode := -1, -1, -1;
      rc, n := AwaitAccess();
      if rc != Success { return; }
      rc := ReadVersions();
      if rc != Success { return; }
      if remoteVersion < 0x20007 && transport == XappWirelessComm {
        transport := WirelessComm;
      }
    }

    /** The part of the set-up behind the first write of the client state. */
    method SetupGallery() returns (rc: Rc, ghost d: Told)
      requires Seen().wrote && Aligned(Gallery) && !openedLiveviewSockets
      modifies `transaction, `replies, `trace, `cameraState, `selectedImgsMode, `numObjects
      modifies `remoteImageViewVersion, `remoteImageViewExVersion, `openedLiveviewSockets, `openCaptureTransId
      ensures Seen().wrote && Seen().guarded == old(Seen()).guarded && Seen().capture != Broken
      ensures rc == Success ==> Aligned(Gallery)
      ensures d.behind == old(cameraState) && d.remoteVersion == remoteVersion
      ensures d.viewVersion == old(remoteImageViewVersion)
      ensures rc == Success ==> Seen().sent == old(Seen()).sent + TailCommands(transport, d)
      ensures rc == Success && ErrorsIn(trace) == ErrorsIn(old(trace)) ==> d.gallery == 11
      ensures Follows(old(trace), trace, rc)
    {
      hide ViewOf, Follows, ErrorsIn, XappGalleryCommands, ClosingCommands;
      FollowChain();
      d := Told(0, 0, 0, remoteVersion, remoteImageViewVersion, 0, cameraState, 0, 0, 11, 0);
      ghost var before, first := Seen().sent, trace;
      ghost var gallery: seq<Command> := [];
      ghost var rc0 := Success;
      if transport == XappWirelessComm {
        ghost var n;
        rc, n := XappConfigGallery();
        rc0 := rc;
        if rc != Success && rc != CheckCode { return; }
        d := d.(galleryVersion := remoteImageViewExVersion, gallery := n);
        gallery := Front(XappGalleryCommands(d.galleryVersion), d.gallery);
      }
      ghost var middle := trace;
      assert Seen().sent == before + gallery;
      if cameraState == MULTIPLE_TRANSFER {
        assert gallery + [] == gallery;
        if rc0 != Success {
          ErrorsBetween(first, middle, trace, rc0);
        }
        return Success, d;
      }
      rc, d := CloseSetup(d);
      if rc == Success {
        ErrorsBetween(first, middle, trace, rc0);
        assert before + gallery + ClosingCommands(transport, d) == before + (gallery + ClosingCommands(transport, d));
      }
    }

    /** Confirms the version and goes through live view once. */
    method CloseSetup(ghost d0: Told) returns (rc: Rc, ghost d: Told)
      requires Seen().wrote && Aligned(Gallery) && !openedLiveviewSockets
      requires d0.behind == cameraState && d0.remoteVersion == remoteVersion && d0.viewVersion == remoteImageViewVersion
      modifies `transaction, `replies, `trace, `cameraState, `selectedImgsMode, `numObjects
      modifies `remoteImageViewVersion, `remoteImageViewExVersion, `openedLiveviewSockets, `openCaptureTransId
      ensures Seen().wrote && Seen().guarded == old(Seen()).guarded && Seen().capture != Broken
      ensures rc == Success ==> Aligned(Gallery)
      ensures d == d0.(echo := d.echo, capture := d.capture)
      ensures rc == Success ==> Seen().sent == old(Seen()).sent + ClosingCommands(transport, d)
      ensures Follows(old(trace), trace, rc)
    {
      hide ViewOf, Follows, VersionCommands, PrimeCommands;
      FollowChain();
      d := d0;
      ghost var before, echo := Seen().sent, 0;
      rc, echo := ConfigVersion();
      if rc != Success { return; }
      d := d.(echo := echo);
      ghost var version := VersionCommands(transport, d.behind, d.remoteVersion, d.echo);
      ghost var auto: seq<Command> := if transport == AutoSave then [SetProp(0xd227, 1)] else [];
      if transport == AutoSave {
        rc := WriteProp(CORRECT_FILE_SIZE, 1);
        if rc != Success { return; }
      }
      assert Seen().sent == before + (version + auto);
      rc := ReadStorageId();
      if rc != Success { return; }
      assert Seen().sent == before + (version + auto + [GetProp(0xd244)]);
      ghost var more: seq<Command> := [];
      if remoteVersion != -1 && cameraState == REMOTE_ACCESS && transport != XappWirelessComm {
        rc := PrimeLiveview();
        if rc != Success { return; }
        d := d.(capture := openCaptureTransId);
        more := PrimeCommands(transport, d);
      }
      assert Seen().sent == before + (version + auto + [GetProp(0xd244)] + more);
      return Success, d;
    }

    /** Enters and leaves live view once, without which the camera stops responding. */
    method PrimeLiveview() returns (rc: Rc)
      requires Seen().wrote && Aligned(Gallery) && !openedLiveviewSockets && transport != XappWirelessComm
                && remoteVersion != -1
      modifies `transaction, `replies, `trace, `cameraState, `selectedImgsMode, `numObjects
      modifies `remoteImageViewVersion, `remoteImageViewExVersion, `openedLiveviewSockets, `openCaptureTransId
      ensures Seen().wrote && Seen().guarded == old(Seen()).guarded && Seen().capture != Broken
      ensures rc == Success ==> Aligned(Gallery)
      ensures rc == Success ==>
                forall d: Told | d.remoteVersion == remoteVersion && d.viewVersion == old(remoteImageViewVersion)
                                 && d.capture == openCaptureTransId ::
                  Seen().sent == old(Seen()).sent + PrimeCommands(transport, d)
      ensures Follows(old(trace), trace, rc)
    {
      hide ViewOf, Follows, LiveviewCommands, EndCommands, GalleryCommands, Poll;
      FollowChain();
      ghost var echo;
      ghost var before := Seen().sent;
      rc, echo := ConfigLiveview();
      if rc != Success { return; }
      rc := EndLiveview();
      if rc != Success { return; }
      rc := ConfigImageGallery();
      PrimeIs(transport, remoteVersion, echo, remoteImageViewExVersion);
    }

    // ------------------------------------------------------------------------------------ live view

    /** Opens the capture that live view runs under, and its sockets the first time. */
    method ConfigLiveview() returns (rc: Rc, ghost echo: int)
      modifies `transaction, `replies, `trace, `cameraState, `selectedImgsMode, `numObjects
      modifies `openedLiveviewSockets, `openCaptureTransId
      ensures old(Seen()).capture == Closed ==> Seen().capture != Broken
      ensures rc == Success && old(Aligned(Gallery)) ==> Aligned(Liveview)
      ensures rc == Success && remoteVersion != -1 ==> openedLiveviewSockets
      ensures old(Seen()).wrote ==> Seen().wrote && Seen().guarded == old(Seen()).guarded
      ensures rc == Success ==>
                Seen().sent == old(Seen()).sent
                  + LiveviewCommands(transport, remoteVersion, old(openedLiveviewSockets), echo)
      ensures Follows(old(trace), trace, rc)
    {
      hide ViewOf, Follows, PrepareCommands, BeginCommands;
      FollowChain();
      ghost var before, again := Seen().sent, openedLiveviewSockets;
      rc, echo := PrepareLiveview();
      if rc != Success { return; }
      ghost var prepared := PrepareCommands(transport, remoteVersion, again, echo);
      if remoteVersion != -1 {
        rc := BeginLiveview();
        assert before + prepared + BeginCommands(again) == before + (prepared + BeginCommands(again));
      } else {
        assert before + prepared == before + (prepared + []);
      }
    }

    /** Opens the capture, which makes the camera open its sockets. */
    method BeginLiveview() returns (rc: Rc)
      modifies `transaction, `replies, `trace, `cameraState, `selectedImgsMode, `numObjects
      modifies `openedLiveviewSockets, `openCaptureTransId
      ensures Seen() == old(Seen()).(capture := Seen().capture, known := Seen().known, sent := Seen().sent,
                                     eventSockets := Seen().eventSockets, videoSockets := Seen().videoSockets)
      ensures old(Seen()).capture == Closed ==> Seen().capture != Broken
      ensures rc == Success ==> openedLiveviewSockets && (old(Sockets()) ==> Sockets())
      ensures rc == Success && old(Seen()).capture == Closed ==> Seen().capture == Opened(openCaptureTransId)
      ensures rc == Success <==> Begins(old(replies), old(openedLiveviewSockets))
      ensures rc == Success ==> replies == Poll(old(replies)[1..]).1[if old(openedLiveviewSockets) then 0 else 2..]
      ensures rc == Success ==> Seen().sent == old(Seen()).sent + BeginCommands(old(openedLiveviewSockets))
      ensures Follows(old(trace), trace, rc)
    {
      hide ViewOf, Follows, Poll;
      FollowChain();
      ghost var before := Seen().sent;
      openCaptureTransId := transaction;
      var r := Send(OpenCapture);
      if r.rc != Success { return r.rc; }
      rc := GetEvents();
      assert Seen().sent == before + [OpenCapture, GetProp(0xd212)];
      if rc != Success { return; }
      if !openedLiveviewSockets {
        rc := ConnectSockets();
        assert rc == Success ==>
            Seen().sent == before + ([OpenCapture, GetProp(0xd212)] + [ConnectEvents, ConnectVideo]);
      } else {
        assert [OpenCapture, GetProp(0xd212)] + [] == [OpenCapture, GetProp(0xd212)];
      }
    }

    method ConnectSockets() returns (rc: Rc)
      requires !openedLiveviewSockets
      modifies `transaction, `replies, `trace, `openedLiveviewSockets
      ensures Seen() == old(Seen()).(eventSockets := Seen().eventSockets, videoSockets := Seen().videoSockets,
                                     sent := Seen().sent)
      ensures rc == Success <==> |old(replies)| >= 2 && old(replies)[0].rc == Success && old(replies)[1].rc == Success
      ensures rc == Success ==> openedLiveviewSockets && (old(Sockets()) ==> Sockets()) && replies == old(replies)[2..]
      ensures rc == Success ==> Seen().sent == old(Seen()).sent + [ConnectEvents, ConnectVideo]
      ensures Follows(old(trace), trace, rc)
    {
      hide ViewOf, ErrorsIn;
      ghost var before := Seen().sent;
      var r := Send(ConnectEvents);
      if r.rc != Success { return r.rc; }
      r := Send(ConnectVideo);
      if r.rc != Success { return r.rc; }
      assert Seen().sent == before + [ConnectEvents, ConnectVideo];
      openedLiveviewSockets := true;
      return Success;
    }

    method PrepareLiveview() returns (rc: Rc, ghost echo: int)
      modifies `transaction, `replies, `trace, `cameraState, `selectedImgsMode, `numObjects
      ensures Seen() == old(Seen()).(wrote := Seen().wrote, guarded := Seen().guarded, known := Seen().known,
                sent := Seen().sent)
      ensures old(Seen()).wrote ==> Seen().wrote && Seen().guarded == old(Seen()).guarded
      ensures rc == Success ==>
                Seen().sent == old(Seen()).sent
                  + PrepareCommands(transport, remoteVersion, openedLiveviewSockets, echo)
      ensures Follows(old(trace), trace, rc)
    {
      hide ViewOf, Follows;
      FollowChain();
      rc, echo := Success, 0;
      ghost var before := Seen().sent;
      if transport == XappWirelessComm {
        rc, echo := AnnounceLiveview();
        if rc != Success { return; }
      }
      if remoteVersion != -1 && openedLiveviewSockets {
        rc := ReenterRemoteMode();
        if rc != Success { return; }
      }
      assert Seen().sent == before + PrepareCommands(transport, remoteVersion, openedLiveviewSockets, echo);
    }

    method AnnounceLiveview() returns (rc: Rc, echo: int)
      modifies `transaction, `replies, `trace
      ensures Seen() == old(Seen()).(wrote := Seen().wrote, guarded := Seen().guarded, sent := Seen().sent)
      ensures old(Seen()).wrote ==> Seen().wrote && Seen().guarded == old(Seen()).guarded
      ensures rc == Success ==>
                Seen().sent == old(Seen()).sent
                  + [SetProp(0xdf00, 6), SetProp(0xdf01, 22), GetProp(0xdf2a), SetProp(0xdf2a, echo)]
      ensures Follows(old(trace), trace, rc)
    {
      hide ViewOf, Follows;
      FollowChain();
      echo := 0;
      ghost var before := Seen().sent;
      rc := WriteProp(CAMERA_STATE, REMOTE_ACCESS);
      if rc != Success { return; }
      rc := WriteProp(CLIENT_STATE, REMOTE_LIVE_VIEW_XAPP);
      if rc != Success { return; }
      rc, echo := ReadProp(UNKNOWN_DF2A);
      if rc != Success { return; }
      rc := WriteProp(UNKNOWN_DF2A, echo);
      assert Seen().sent == before + [SetProp(0xdf00, 6), SetProp(0xdf01, 22), GetProp(0xdf2a), SetProp(0xdf2a, echo)];
    }

    method ReenterRemoteMode() returns (rc: Rc)
      modifies `transaction, `replies, `trace, `cameraState, `selectedImgsMode, `numObjects
      ensures Seen() == old(Seen()).(wrote := Seen().wrote, guarded := Seen().guarded, known := Seen().known,
                sent := Seen().sent)
      ensures old(Seen()).wrote ==> Seen().wrote && Seen().guarded == old(Seen()).guarded
      ensures rc == Success ==>
                Seen().sent == old(Seen()).sent
                  + [SetProp(0xdf00, 6), GetProp(0xd212), SetProp(0xdf01, 5), GetProp(0xdf24), SetProp(0xdf24, 0x2000C),
                      GetProp(0xd212)]
      ensures Follows(old(trace), trace, rc)
    {
      hide ViewOf, Follows, Poll, LastValue, EventsAt;
      FollowChain();
      var value;
      ghost var before := Seen().sent;
      ghost var all := [SetProp(0xdf00, 6), GetProp(0xd212), SetProp(0xdf01, 5), GetProp(0xdf24),
                        SetProp(0xdf24, 0x2000C), GetProp(0xd212)];
      AllOf(before, all);
      NextOf(before, all, 0);
      rc := WriteProp(CAMERA_STATE, REMOTE_ACCESS);
      if rc != Success { return; }
      NextOf(before, all, 1);
      rc := GetEvents();
      if rc != Success { return; }
      NextOf(before, all, 2);
      rc := WriteProp(CLIENT_STATE, REMOTE_MODE);
      if rc != Success { return; }
      NextOf(before, all, 3);
      rc, value := ReadProp(REMOTE_VERSION);
      if rc != Success { return; }
      NextOf(before, all, 4);
      rc := WriteProp(REMOTE_VERSION, CLIENT_REMOTE_VERSION);
      if rc != Success { return; }
      NextOf(before, all, 5);
      rc := GetEvents();
    }

    /** At `k` the trace terminates the capture, and this is what came of it. */
    ghost predicate Terminates(k: nat, rc: Rc)
      reads `trace, `openCaptureTransId
    {
      && k < |trace| && trace[k].command == TerminateCapture(openCaptureTransId)
      && trace[k].reply.rc == rc
    }

    predicate HasGallery(version: int)
      reads `transport
    {
      transport != Usb && transport != WirelessTether && version != -1
    }

    /** From `k` on the trace has the commands of the gallery, which begin with a poll. */
    ghost predicate GalleryFrom(k: nat)
      reads `trace
    {
      k < |trace| && trace[k].command == GetProp(EVENTS_LIST)
    }

    /** Terminates the capture of live view, by the transaction that opened it. */
    method EndLiveview() returns (rc: Rc)
      modifies `transaction, `replies, `trace, `cameraState, `selectedImgsMode, `numObjects
      ensures Seen() == old(Seen()).(capture := Seen().capture, known := Seen().known, sent := Seen().sent)
      ensures rc == Success ==>
                Seen().sent == old(Seen()).sent + EndCommands(remoteVersion, openCaptureTransId)
      ensures old(Seen().capture == CaptureIn(Liveview, remoteVersion, openCaptureTransId)) ==>
                Seen().capture == if rc == Success then Closed else old(Seen()).capture
      ensures rc == Success <==> remoteVersion == -1 || PollThenSucceed(old(replies))
      ensures rc == Success && remoteVersion != -1 ==>
                |trace| > |old(trace)| && trace[|trace| - 1].command == TerminateCapture(openCaptureTransId)
      ensures remoteVersion != -1 && Poll(old(replies)).0 == Success ==>
                |trace| > |old(trace)| + 1 && Terminates(|trace| - 1, BehindPoll(old(replies)))
      ensures Follows(old(trace), trace, rc)
    {
      hide ViewOf, Follows, Poll;
      FollowChain();
      ghost var before := Seen().sent;
      if remoteVersion == -1 {
        assert before + [] == before;
        return Success;
      }
      rc := GetEvents();
      if rc != Success { return; }
      var r := Send(TerminateCapture(openCaptureTransId));
      rc := r.rc;
      assert Seen().sent == before + [GetProp(0xd212), TerminateCapture(openCaptureTransId)];
    }

    method ConfigImageGallery() returns (rc: Rc)
      modifies `transaction, `replies, `trace, `cameraState, `selectedImgsMode, `numObjects
      modifies `remoteImageViewVersion, `remoteImageViewExVersion
      ensures Seen() == old(Seen()).(wrote := Seen().wrote, guarded := Seen().guarded, known := Seen().known,
                sent := Seen().sent)
      ensures old(HasGallery(remoteImageViewVersion)) ==> GalleryFrom(|old(trace)|)
      ensures !old(HasGallery(remoteImageViewVersion)) ==> rc == Success && trace == old(trace)
      ensures rc == Success ==>
                Seen().sent == old(Seen()).sent
                  + GalleryCommands(transport, old(remoteImageViewVersion), remoteImageViewExVersion)
      ensures old(Seen()).wrote ==> Seen().wrote && Seen().guarded == old(Seen()).guarded
      ensures Follows(old(trace), trace, rc)
    {
      hide ViewOf, Follows, XappGalleryCommands;
      FollowChain();
      ghost var before := Seen().sent;
      if !HasGallery(remoteImageViewVersion) {
        assert before + [] == before;
        return Success;
      }
      ghost var viewVersion := remoteImageViewVersion;
      rc := AnnounceGallery();
      if rc != Success { return; }
      ghost var announced := Seen().sent;
      if transport == XappWirelessComm {
        ghost var n;
        rc, n := XappConfigGallery();
        if rc != Success { return; }
        WholeFront(remoteImageViewExVersion);
        assert Seen().sent == announced + XappGalleryCommands(remoteImageViewExVersion);
      } else {
        rc := RaiseVersion();
        if rc != Success { return; }
      }
      ghost var middle: seq<Command> :=
        if transport == XappWirelessComm then XappGalleryCommands(remoteImageViewExVersion)
        else [GetProp(0xd212), GetProp(0xdf25), SetProp(0xdf25, 5)];
      assert Seen().sent == announced + middle;
      rc := GetEvents();
      ghost var announcing := [GetProp(0xd212), SetProp(0xdf00, 6), GetProp(0xd212), GetProp(0xd212),
                               SetProp(0xdf01, if transport == XappWirelessComm then 20 else 11)];
      SomeMore(before, announcing, middle);
      SomeMore(before, announcing + middle, [GetProp(0xd212)]);
    }

    /** Sets the version of the older gallery higher than the camera has it. */
    method RaiseVersion() returns (rc: Rc)
      modifies `transaction, `replies, `trace, `cameraState, `selectedImgsMode, `numObjects, `remoteImageViewVersion
      ensures Seen() == old(Seen()).(known := Seen().known, sent := Seen().sent)
      ensures rc == Success ==>
                Seen().sent == old(Seen()).sent + [GetProp(0xd212), GetProp(0xdf25), SetProp(0xdf25, 5)]
      ensures Follows(old(trace), trace, rc)
    {
      hide ViewOf, Follows;
      FollowChain();
      ghost var before := Seen().sent;
      ghost var all := [GetProp(0xd212), GetProp(0xdf25), SetProp(0xdf25, 5)];
      AllOf(before, all);
      NextOf(before, all, 0);
      rc := GetEvents();
      if rc != Success { return; }
      NextOf(before, all, 1);
      rc, remoteImageViewVersion := ReadProp(REMOTE_GET_OBJECT_VERSION);
      if rc != Success { return; }
      NextOf(before, all, 2);
      rc := WriteProp(REMOTE_GET_OBJECT_VERSION, 5);
    }

    method AnnounceGallery() returns (rc: Rc)
      modifies `transaction, `replies, `trace, `cameraState, `selectedImgsMode, `numObjects
      ensures GalleryFrom(|old(trace)|)
      ensures Seen() == old(Seen()).(wrote := Seen().wrote, guarded := Seen().guarded, known := Seen().known,
                sent := Seen().sent)
      ensures old(Seen()).wrote ==> Seen().wrote && Seen().guarded == old(Seen()).guarded
      ensures rc == Success ==>
                Seen().sent == old(Seen()).sent
                  + [GetProp(0xd212), SetProp(0xdf00, 6), GetProp(0xd212), GetProp(0xd212),
                      SetProp(0xdf01, if transport == XappWirelessComm then 20 else 11)]
      ensures Follows(old(trace), trace, rc)
    {
      hide ViewOf, Follows;
      FollowChain();
      ghost var before, start := Seen().sent, trace;
      rc := ClaimAccess();
      if rc != Success { return; }
      ghost var claimed := trace;
      var mode := if transport == XappWirelessComm then REMOTE_IMG_VIEW_XAPP else REMOTE_IMG_VIEW;
      rc := PollTwice(mode);
      assert trace[|start|] == claimed[|start|];
      SomeMore(before, [GetProp(0xd212), SetProp(0xdf00, 6)],
          [GetProp(0xd212), GetProp(0xd212), SetProp(0xdf01, mode)]);
    }

    method ClaimAccess() returns (rc: Rc)
      modifies `transaction, `replies, `trace, `cameraState, `selectedImgsMode, `numObjects
      ensures GalleryFrom(|old(trace)|)
      ensures Seen() == old(Seen()).(known := Seen().known, sent := Seen().sent)
      ensures rc == Success ==> Seen().sent == old(Seen()).sent + [GetProp(0xd212), SetProp(0xdf00, 6)]
      ensures Follows(old(trace), trace, rc)
    {
      hide ViewOf, Follows;
      FollowChain();
      ghost var before, start := Seen().sent, trace;
      rc := GetEvents();
      if rc != Success { return; }
      ghost var polled := trace;
      rc := WriteProp(CAMERA_STATE, REMOTE_ACCESS);
      assert trace[|start|] == polled[|start|];
      OneMore(before, [GetProp(0xd212)], SetProp(0xdf00, 6));
    }

    /** Two polls, and the state the client is in. */
    method PollTwice(mode: int) returns (rc: Rc)
      modifies `transaction, `replies, `trace, `cameraState, `selectedImgsMode, `numObjects
      ensures Seen() == old(Seen()).(wrote := Seen().wrote, guarded := Seen().guarded, known := Seen().known,
                sent := Seen().sent)
      ensures old(Seen()).wrote ==> Seen().wrote && Seen().guarded == old(Seen()).guarded
      ensures rc == Success ==>
                Seen().sent == old(Seen()).sent + [GetProp(0xd212), GetProp(0xd212), SetProp(0xdf01, mode)]
      ensures Follows(old(trace), trace, rc)
    {
      hide ViewOf, Follows;
      FollowChain();
      ghost var before := Seen().sent;
      rc := GetEvents();
      if rc != Success { return; }
      rc := GetEvents();
      if rc != Success { return; }
      OneMore(before, [GetProp(0xd212)], GetProp(0xd212));
      rc := WriteProp(CLIENT_STATE, mode);
      OneMore(before, [GetProp(0xd212), GetProp(0xd212)], SetProp(0xdf01, mode));
    }

    /** Switches screens.  Whether leaving live view worked is not passed on: the capture stays open,
        under success, exactly if the poll or the termination gets a bad reply. */
    method OnSwitchScreen(oldScreen: Screen, newScreen: Screen) returns (rc: Rc)
      modifies `transaction, `replies, `trace, `cameraState, `selectedImgsMode, `numObjects
      modifies `remoteImageViewVersion, `remoteImageViewExVersion, `openedLiveviewSockets, `openCaptureTransId
      ensures newScreen != Liveview ==> rc == Success
      ensures (oldScreen == Liveview) == (newScreen == Liveview) ==> rc == Success && trace == old(trace)
      ensures old(Aligned(oldScreen)) ==> Seen().capture != Broken
      ensures old(Aligned(oldScreen)) && rc == Success ==>
                (Aligned(newScreen) <==> !(oldScreen == Liveview && newScreen != Liveview && remoteVersion != -1)
                                         || PollThenSucceed(old(replies)))
      ensures old(Aligned(oldScreen)) && ErrorsIn(trace) == ErrorsIn(old(trace)) ==> rc == Success && Aligned(newScreen)
      ensures old(Aligned(Liveview)) && oldScreen == Liveview && newScreen != Liveview
              && remoteVersion != -1 && !PollThenSucceed(old(replies)) ==>
                rc == Success && Aligned(Liveview)
      ensures oldScreen == Liveview && newScreen != Liveview && remoteVersion != -1
              && Poll(old(replies)).0 == Success ==>
                exists k: nat :: |old(trace)| < k && Terminates(k, BehindPoll(old(replies)))
                                 && (HasGallery(old(remoteImageViewVersion)) ==> GalleryFrom(k + 1))
      ensures oldScreen == Liveview && newScreen != Liveview && ErrorsIn(trace) == ErrorsIn(old(trace)) ==>
                Seen().sent == old(Seen()).sent + EndCommands(remoteVersion, openCaptureTransId)
                  + GalleryCommands(transport, old(remoteImageViewVersion), remoteImageViewExVersion)
      ensures oldScreen != Liveview && newScreen == Liveview && rc == Success ==> exists echo: int ::
                Seen().sent == old(Seen()).sent
                  + LiveviewCommands(transport, remoteVersion, old(openedLiveviewSockets), echo)
      ensures old(Seen()).wrote ==> Seen().wrote && Seen().guarded == old(Seen()).guarded
      ensures Follows(old(trace), trace, rc)
    {
      hide ViewOf, ErrorsIn, Poll, LiveviewCommands, EndCommands, GalleryCommands;
      if newScreen == Liveview && oldScreen == Liveview {
        return Success;
      }
      if newScreen == Liveview {
        ghost var echo;
        rc, echo := ConfigLiveview();
        if rc != Success { return; }
      } else if oldScreen == Liveview {
        rc := EndLiveview();
        ghost var k, ended := |trace| - 1, trace;
        var ignored := ConfigImageGallery();
        assert ended <= trace;
        if remoteVersion != -1 && Poll(old(replies)).0 == Success {
          assert Terminates(k, BehindPoll(old(replies)));
          assert HasGallery(old(remoteImageViewVersion)) ==> GalleryFrom(k + 1);
        }
      }
      return Success;
    }

    /** At the marks the capture was open exactly for the screens that are live view. */
    ghost predicate Tracked(screens: seq<Screen>, marks: seq<nat>)
      requires |marks| <= |screens|
      reads `trace, `remoteVersion
    {
      forall i | 0 <= i < |marks| ::
        && marks[i] <= |trace| && ViewOf(trace[..marks[i]]).capture != Broken
        && (ViewOf(trace[..marks[i]]).capture.Opened? <==> screens[i] == Liveview && remoteVersion != -1)
    }

    /** A run of screen switches, up to the first that reports an error; `marks` are the lengths of the
        trace behind each switch. */
    method RunScreens(screens: seq<Screen>) returns (n: nat, ghost marks: seq<nat>)
      requires Aligned(Gallery)
      modifies `transaction, `replies, `trace, `cameraState, `selectedImgsMode, `numObjects
      modifies `remoteImageViewVersion, `remoteImageViewExVersion, `openedLiveviewSockets, `openCaptureTransId
      ensures n == |marks| <= |screens| && Follows(old(trace), trace, Success)
      ensures n < |screens| ==> exists k | |old(trace)| <= k < |trace| :: Failed(trace[k])
      ensures ErrorsIn(trace) == ErrorsIn(old(trace)) ==>
                && n == |screens| && Tracked(screens, marks)
                && Aligned(if n == 0 then Gallery else screens[n - 1])
      ensures n > 0 ==> |old(trace)| <= marks[0] && marks[n - 1] <= |trace|
      ensures n > 0 && n == |screens| ==> marks[n - 1] == |trace|
      ensures forall i, j | 0 <= i < j < n :: marks[i] <= marks[j]
      ensures old(Seen()).wrote ==> Seen().wrote && Seen().guarded == old(Seen()).guarded
    {
      hide ViewOf, ErrorsIn, Poll, LiveviewCommands, EndCommands, GalleryCommands, BehindPoll, AfterEvents;
      n, marks := 0, [];
      var screen := Gallery;
      while n < |screens|
        invariant n == |marks| <= |screens| && Follows(old(trace), trace, Success)
        invariant screen == if n == 0 then Gallery else screens[n - 1]
        invariant ErrorsIn(trace) == ErrorsIn(old(trace)) ==> Aligned(screen) && Tracked(screens, marks)
        invariant n > 0 ==> |old(trace)| <= marks[0] && marks[n - 1] == |trace|
        invariant forall i, j | 0 <= i < j < n :: marks[i] <= marks[j]
        invariant old(Seen()).wrote ==> Seen().wrote && Seen().guarded == old(Seen()).guarded
      {
        ghost var before := trace;
        var rc := OnSwitchScreen(screen, screens[n]);
        if rc != Success {
          ErrorFree(old(trace), trace);
          return;
        }
        assert trace[..|trace|] == trace && forall i | 0 <= i < n :: trace[..marks[i]] == before[..marks[i]];
        screen, marks := screens[n], marks + [|trace|];
        n := n + 1;
      }
    }

    /** Set-up and then any run of screen switches: without an error the run gets through, live view is
        what a capture is open for at every step, and each socket was opened at most once.  `start` is the
        length of the trace behind the set-up. */
    method SetupAndRun(screens: seq<Screen>)
      returns (rc: Rc, n: nat, ghost marks: seq<nat>, ghost d: Told, ghost start: nat)
      requires trace == [] && !openedLiveviewSockets
      modifies this
      ensures n == |marks| <= |screens| && start <= |trace|
      ensures ErrorsIn(trace) == 0 ==>
                && rc == Success && n == |screens| && Tracked(screens, marks)
                && Aligned(if n == 0 then Gallery else screens[n - 1])
                && (transport != WirelessTether ==> Seen().wrote && HasRead(0xdf24, remoteVersion) && d.gallery == 11)
      ensures rc == Success && transport != WirelessTether ==>
                && ViewOf(trace[..start]).sent == SetupCommands(transport, d)
                && d.remoteVersion == remoteVersion && d.polls > 0 && exists m: nat :: ToldAt(trace[..start], d, m)
      ensures rc == Success && old(transport) != WirelessTether ==>
                transport == if old(transport) == XappWirelessComm && remoteVersion < 0x20007 then WirelessComm
                             else old(transport)
      ensures transport != WirelessTether ==> Seen().guarded
      ensures trace != [] && trace[0].command == Handshake
    {
      hide ViewOf, ErrorsIn, SetupCommands, ToldAt;
      n, marks, start := 0, [], 0;
      rc, d := Setup();
      if rc == Success {
        ghost var before := trace;
        start := |trace|;
        n, marks := RunScreens(screens);
        assert trace[..start] == before;
        assert forall k: nat | k < |before| :: trace[k] == before[k];
        assert forall k: nat | k < |before| && before[k].command == GetProp(0xdf24)
                 && before[k].reply.value == remoteVersion :: IsRead(k, 0xdf24, remoteVersion);
      }
    }
  }

  /** Live view is entered, and left while the camera refuses the termination: the switch goes on to the
      gallery and reports success, and the capture is still open. */
  method LeavesCaptureOpen() returns (r: PtpRuntime, rc: Rc)
    ensures rc == Success && r.remoteVersion != -1 && r.Seen().capture == Opened(r.openCaptureTransId)
    ensures exists k: nat ::
              && r.GalleryFrom(k + 1) && r.trace[k].command == TerminateCapture(r.openCaptureTransId)
              && r.trace[k].reply.rc == CheckCode
  {
    var ok, no := Reply(Success, 0, []), Reply(CheckCode, 0, []);
    r := new PtpRuntime(WirelessComm, [ok, ok, ok, ok, ok, no], []);
    assert r.Seen() == View(Closed, 0, 0, false, true, -1, []);
    rc := r.BeginLiveview();
    assert Poll([ok, ok, ok, ok, no]) == (Success, [ok, ok, ok, no]);
    assert r.replies == [ok, no];
    assert Poll(r.replies) == (Success, [no]);
    assert BehindPoll(r.replies) == CheckCode;
    rc := r.OnSwitchScreen(Liveview, Gallery);
    ghost var k: nat :| r.Terminates(k, CheckCode) && r.GalleryFrom(k + 1);
  }
}

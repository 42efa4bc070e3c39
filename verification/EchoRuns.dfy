/** The server's echo recommendation on every run, and what the client predicts by it. */
module EchoRuns {
  import opened Base
  import opened TerminalGrid
  import opened MirroredFrame
  import opened LocalEcho
  import opened ClientMirror
  import opened Protocol
  import opened Network
  import opened ScreenChannel
  import opened ScreenRuns
  import opened MirrorRuns
  import opened ClientWire
  import EscapeFilter
  import Srv = ServerSession
  import Cli = ClientSession

  // ----- what was recommended -----

  /** What the step reports as the recommendation, if it can queue a frame at all. */
  function RecommendedIn(step: Step): (echo: bool) {
    match step.event
    case ServerReceives(_, env) => env.echo
    case HandshakeArrives(_, env) => env.echo
    case ServerTick(echo) => echo
    case _ => true
  }

  /** For the number of every frame queued so far, the recommendation of the step that queued it. */
  ghost function Recommended(y: Sys, steps: seq<Step>): (r: map<nat, bool>)
    requires ValidSys(y) && RunFrom(y, steps).Some?
    decreases |steps|
  {
    if steps == [] then map[]
    else
      var before := Recommended(y, steps[..|steps| - 1]);
      RecommendedAfter(before, RunFrom(y, steps).value.trace.recorded, RecommendedIn(steps[|steps| - 1]))
  }

  function RecommendedAfter(before: map<nat, bool>, recorded: map<nat, Grid>, echo: bool): (r: map<nat, bool>) {
    map n | n in recorded :: if n in before then before[n] else echo
  }

  /** Every frame on the wire carries what was recommended when it was queued. */
  predicate FramesRecommend(packets: set<ServerPacket>, r: map<nat, bool>) {
    forall p | p in packets && p.payload.FramePayload? :: p.seqNum in r && p.payload.update.echo == r[p.seqNum]
  }

  /** The client follows the last frame it applied, and predicts before any. */
  predicate FollowsLast(c: Cli.Client, r: map<nat, bool>) {
    if c.history == [] then c.echoEnabled
    else
      var last := c.history[|c.history| - 1].seqNum;
      last in r && c.echoEnabled == r[last]
  }

  predicate EchoInv(y: Sys, r: map<nat, bool>) {
    r.Keys == y.trace.recorded.Keys && FramesRecommend(y.toClient, r) && FollowsLast(y.client, r)
  }

  // ----- the server's side -----

  /** What an entry point sends besides its frame job is no frame, and the job carries the recommendation. */
  predicate CarriesEcho(s: Srv.Server, f: Srv.Fed, echo: bool) {
    && (forall q | q in Replied(f.replies) :: !q.payload.FramePayload?)
    && (f.job.Some? ==> f.job.value.echo == echo && f.job.value.seqNum > s.seqNum)
  }

  /** Every job a sync emits carries the recommendation it was given. */
  lemma SyncRecommends(s: Srv.Server, now: Time, echo: bool)
    ensures var job := Srv.CheckSync(s, now, echo).job;
            job.Some? ==> job.value.echo == echo && job.value.seqNum == s.seqNum + 1
  {
    hide Srv.PruneHistory, Srv.ReferenceFor;
  }

  lemma FinishEcho(s0: Srv.Server, s: Srv.Server, replies: seq<Srv.ServerAction>, items: seq<Srv.Item>, now: Time,
                   echo: bool)
    requires s.seqNum >= s0.seqNum && forall q | q in Replied(replies) :: !q.payload.FramePayload?
    ensures CarriesEcho(s0, Srv.Finish(s, replies, items, now, echo), echo)
  {
    hide Srv.CheckSync;
    SyncRecommends(s, now, echo);
  }

  lemma {:induction false} ItemsSendNoFrame(s: Srv.Server, items: seq<Srv.Item>, resized: Grid)
    ensures forall q | q in Replied(Srv.ProcessItems(s, items, resized).replies) :: !q.payload.FramePayload?
    decreases |items|
  {
    if items != [] {
      ItemsSendNoFrame(s, items[..|items| - 1], resized);
    }
  }

  lemma FeedEcho(s: Srv.Server, p: ClientPacket, now: Time, env: Srv.Env)
    ensures CarriesEcho(s, Srv.Feed(s, p, now, env), env.echo)
  {
    hide Srv.Finish, Srv.ProcessItems, Srv.Contiguous, Srv.Remaining;
    var s1 := s.(lastRecv := now);
    if p.sessionId == 0 {
      var r := Srv.Reset(s, p, now);
      var a := Srv.SendPacket(ServerPacket(r.seqNum, p.seqNum, HandshakeAck(s.sessionId)));
      FinishEcho(s, r, [a], [], now, env.echo);
    } else if Srv.IsTransient(p) {
      FinishEcho(s, if p.ack > s.clientAck then s1.(clientAck := p.ack) else s1,
                 match p.payload
                 case FragmentNack(frameSeq, mask) => [Srv.ResendFragments(frameSeq, mask)]
                 case _ => [], [], now, env.echo);
    } else if p.seqNum == s.expected {
      var items := Srv.Released(s1, p);
      var done := Srv.ProcessItems(Srv.Advance(s1, p), items, env.resized);
      ItemsSendNoFrame(Srv.Advance(s1, p), items, env.resized);
      Srv.ProcessChangesLittle(Srv.Advance(s1, p), items, env.resized);
      FinishEcho(s, done.server, done.replies, items, now, env.echo);
    }
  }

  lemma ServerStepEcho(y: Sys, f: Srv.Fed, now: Time, reset: bool, echo: bool, r: map<nat, bool>)
    requires ScreenInv(y) && EchoInv(y, r) && Srv.FedOk(f) && CarriesEcho(y.server, f, echo)
    ensures var z := AfterServer(y, f, now, reset); EchoInv(z, RecommendedAfter(r, z.trace.recorded, echo))
  {
    hide ServerSide, ClientSide, AcksOk, Srv.ValidServer, DiffFrom;
    var z := AfterServer(y, f, now, reset);
    NumbersBelow(y);
    if f.job.Some? {
      JobCarries(f.job.value);
    }
  }

  lemma NumbersBelow(y: Sys)
    requires ScreenInv(y)
    ensures forall n | n in y.trace.recorded :: n <= y.server.seqNum
  {
  }

  lemma JobCarries(j: Srv.UpdateJob)
    requires Srv.ValidJob(j)
    ensures var p := Srv.RunJob(j); p.seqNum == j.seqNum && p.payload.FramePayload? && p.payload.update.echo == j.echo
  {
  }

  /** A step that queues no frame leaves the recommendations as they are. */
  lemma NothingQueued(y: Sys, z: Sys, echo: bool, r: map<nat, bool>)
    requires r.Keys == y.trace.recorded.Keys && z.trace.recorded == y.trace.recorded
    ensures RecommendedAfter(r, z.trace.recorded, echo) == r
  {
  }

  // ----- the client's side -----

  /** Only an applied frame changes whether the client predicts, to what the frame says. */
  lemma FeedFollows(c: Cli.Client, p: ServerPacket, now: Time)
    requires Cli.ValidClient(c)
    ensures var f := Cli.Feed(c, p, now);
            && (f.outcome.Applied? ==> p.payload.FramePayload? && f.client.echoEnabled == p.payload.update.echo)
            && (!f.outcome.Applied? ==> f.client.echoEnabled == c.echoEnabled && f.client.history == c.history)
  {
    hide Reconcile, Cli.LossAfter, Cli.RttAfter, Patch, Cli.StartFor, Cli.Mirrored, ShowBanner;
  }

  lemma OthersFollow(c: Cli.Client, buf: seq<byte>, cols: u16, rows: u16, incomplete: seq<Cli.Report>, now: Time)
    requires Cli.ValidClient(c)
    ensures var d := Cli.FeedStdin(c, buf, now).client; d.echoEnabled == c.echoEnabled && d.history == c.history
    ensures var d := Cli.OnWinch(c, cols, rows, now).client; d.echoEnabled == c.echoEnabled && d.history == c.history
    ensures var d := Cli.Tick(c, incomplete, now).client; d.echoEnabled == c.echoEnabled && d.history == c.history
  {
    hide Predict, Abort, EscapeFilter.Filter, Cli.CommandActions, Cli.Tick, Cli.MarkSent, Cli.Overdue;
    Cli.TickChangesLittle(c, incomplete, now);
  }

  lemma ClientStepEcho(y: Sys, z: Sys, r: map<nat, bool>, echo: bool)
    requires EchoInv(y, r) && z.toClient == y.toClient && z.trace.recorded == y.trace.recorded
    requires z.client.echoEnabled == y.client.echoEnabled && z.client.history == y.client.history
    ensures EchoInv(z, RecommendedAfter(r, z.trace.recorded, echo))
  {
    hide FramesRecommend;
    NothingQueued(y, z, echo, r);
  }

  lemma ReceiveEcho(y: Sys, p: ServerPacket, now: Time, r: map<nat, bool>, echo: bool)
    requires ValidSys(y) && ScreenInv(y) && EchoInv(y, r) && p in y.toClient
    ensures var z := AfterReceive(y, p, now); EchoInv(z, RecommendedAfter(r, z.trace.recorded, echo))
  {
    hide ScreenInv, Cli.Feed, ClientSide, PacketOk, Cli.Mirrored, Cli.Receive, Cli.Heard;
    var f, z := Cli.Feed(y.client, p, now), AfterReceive(y, p, now);
    FeedFollows(y.client, p, now);
    OnTheWire(y, p);
    ReceiveExact(y.client, LedgerOf(y), p, now);
    if f.outcome.Applied? {
      NothingQueued(y, z, echo, r);
      RecordedLast(y.client.history, p.seqNum, y.trace.recorded[p.seqNum]);
    } else {
      ClientStepEcho(y, z, r, echo);
    }
  }

  lemma RecordedLast(history: seq<Snapshot>, n: nat, t: Grid)
    ensures var h := Record(history, Snapshot(n, t)); h != [] && h[|h| - 1] == Snapshot(n, t)
  {
  }

  // ----- every run -----

  lemma StepEcho(y: Sys, step: Step, r: map<nat, bool>)
    requires ValidSys(y) && Enabled(y, step) && ScreenInv(y) && EchoInv(y, r)
    ensures var z := Next(y, step); EchoInv(z, RecommendedAfter(r, z.trace.recorded, RecommendedIn(step)))
  {
    hide ScreenInv, EchoInv, Srv.Feed, Srv.Finish, Srv.FedOk, Fits, Cli.Feed, Cli.FeedStdin, Cli.OnWinch, Cli.Tick,
         AfterServer, AfterReceive, CarriesEcho, RecommendedAfter, Srv.ResetBy, SendTimesAfter, Numbered;
    var s, c, now, echo := y.server, y.client, step.now, RecommendedIn(step);
    match step.event {
      case ClientReceives(p) => ReceiveEcho(y, p, now, r, echo);
      case ServerReceives(p, env) =>
        FeedEcho(s, p, now, env);
        FedFits(y, p, now, env);
        ServerStepEcho(y, Srv.Feed(s, p, now, env), now, p.sessionId == 0 && Srv.ResetBy(s, now), echo, r);
      case HandshakeArrives(p, env) =>
        FeedEcho(s, p, now, env);
        FedFits(y, p, now, env);
        ServerStepEcho(y, Srv.Feed(s, p, now, env), now, Srv.ResetBy(s, now), echo, r);
      case PtyOutput(_, _) => ClientStepEcho(y, Next(y, step), r, echo);
      case ServerTick(_) =>
        FinishEcho(s, s, [], [], now, echo);
        Srv.FinishValid(s, [], [], now, echo);
        ServerStepEcho(y, Srv.Finish(s, [], [], now, echo), now, false, echo, r);
      case ServerShutdown =>
        ShutdownEcho(s, echo);
        ServerStepEcho(y, Srv.PrepareShutdown(s), now, false, echo, r);
      case Stdin(buf) =>
        OthersFollow(c, buf, 0, 0, [], now);
        ClientStepEcho(y, Next(y, step), r, echo);
      case Winch(cols, rows) =>
        OthersFollow(c, [], cols, rows, [], now);
        ClientStepEcho(y, Next(y, step), r, echo);
      case ClientTick(incomplete) =>
        OthersFollow(c, [], 0, 0, incomplete, now);
        ClientStepEcho(y, Next(y, step), r, echo);
    }
  }

  lemma ShutdownEcho(s: Srv.Server, echo: bool)
    requires Srv.ValidServer(s)
    ensures Srv.FedOk(Srv.PrepareShutdown(s)) && CarriesEcho(s, Srv.PrepareShutdown(s), echo)
  {
  }

  /**
   * On every run each frame on the wire carries the recommendation of the step that queued it, and the
   * client predicts exactly when the last frame it applied was queued with echo recommended, or when
   * it has applied none.
   */
  lemma {:induction false} RecommendationIsFollowed(g: Config, steps: seq<Step>)
    requires ValidConfig(g) && Run(g, steps).Some? && ValidSys(Init(g))
    ensures EchoInv(Run(g, steps).value, Recommended(Init(g), steps))
    decreases |steps|
  {
    hide Enabled, Next, ValidSys, RecommendedAfter, RecommendedIn;
    if steps != [] {
      hide EchoInv, ScreenInv;
      var before := steps[..|steps| - 1];
      RecommendationIsFollowed(g, before);
      RunKeeps(g, before);
      StepEcho(Run(g, before).value, steps[|steps| - 1], Recommended(Init(g), before));
    }
  }

  // ----- what is predicted by it -----

  predicate AllPrintable(keys: seq<byte>) {
    forall b | b in keys :: 0x20 <= b && b != 0x7f
  }

  /** What one more numbered payload does to the keystrokes echoed on the screen; a resize takes them off. */
  function EchoedAfter(pending: seq<byte>, p: ClientPayload): (r: seq<byte>) {
    match p
    case Keystrokes(keys) => if AllPrintable(keys) then pending + keys else pending
    case Resize(_, _) => []
    case _ => pending
  }

  function EchoedKeys(pending: seq<byte>, log: seq<ClientPayload>): (r: seq<byte>) {
    if log == [] then pending else EchoedAfter(EchoedKeys(pending, log[..|log| - 1]), log[|log| - 1])
  }

  lemma OneMoreKey(pending: seq<byte>, log: seq<ClientPayload>, more: seq<ClientPayload>)
    requires |more| <= 1
    ensures EchoedKeys(pending, log + more) == EchoedKeys(EchoedKeys(pending, log), more)
  {
    if more == [] {
      assert log + more == log;
    } else {
      assert (log + more)[..|log|] == log && more[..0] == [];
    }
  }

  lemma {:induction false} TypingIgnoresMarks(t: Typing, bytes: seq<byte>, dirty: bool, rowDirty: seq<bool>)
    requires ValidFrame(t.frame) && |rowDirty| == |t.frame.rowDirty|
    ensures var u := TypeBytes(t, bytes);
            && |u.frame.rowDirty| == |t.frame.rowDirty|
            && TypeBytes(t.(frame := Marked(t.frame, dirty, rowDirty)), bytes)
               == u.(frame := Marked(u.frame, dirty, rowDirty))
    decreases |bytes|
  {
    if bytes != [] {
      hide TypeByte;
      TypingIgnoresMarks(t, bytes[..|bytes| - 1], dirty, rowDirty);
      ByteIgnoresMarks(TypeBytes(t, bytes[..|bytes| - 1]), bytes[|bytes| - 1], dirty, rowDirty);
    }
  }

  lemma OverwriteIgnoresMarks(t: Typing, x: u16, y: u16, cell: Cell, dirty: bool, rowDirty: seq<bool>)
    requires ValidFrame(t.frame) && InFrame(t.frame, x, y) && |rowDirty| == |t.frame.rowDirty|
    ensures var u := Overwrite(t, x, y, cell);
            && u.frame == t.frame.(cells := u.frame.cells)
            && Overwrite(t.(frame := Marked(t.frame, dirty, rowDirty)), x, y, cell)
               == u.(frame := Marked(u.frame, dirty, rowDirty))
  {
    hide Saved;
  }

  /** The byte does the same to the frame under other marks. */
  ghost predicate SameUnderMarks(t: Typing, b: byte, dirty: bool, rowDirty: seq<bool>)
    requires ValidFrame(t.frame) && |rowDirty| == |t.frame.rowDirty|
  {
    var u := TypeByte(t, b);
    && |u.frame.rowDirty| == |t.frame.rowDirty|
    && TypeByte(t.(frame := Marked(t.frame, dirty, rowDirty)), b) == u.(frame := Marked(u.frame, dirty, rowDirty))
  }

  lemma BackspaceIgnoresMarks(t: Typing, b: byte, dirty: bool, rowDirty: seq<bool>)
    requires ValidFrame(t.frame) && |rowDirty| == |t.frame.rowDirty| && (b == 0x08 || b == 0x7f)
    ensures SameUnderMarks(t, b, dirty, rowDirty)
  {
    hide Overwrite;
    var f := t.frame;
    if f.cursorX > 0 && InFrame(f, f.cursorX - 1, f.cursorY) {
      var moved := t.(frame := f.(cursorX := f.cursorX - 1));
      OverwriteIgnoresMarks(moved, f.cursorX - 1, f.cursorY, BLANK, dirty, rowDirty);
      assert moved.(frame := Marked(moved.frame, dirty, rowDirty))
          == t.(frame := Marked(f, dirty, rowDirty).(cursorX := f.cursorX - 1));
    }
  }

  lemma PrintableIgnoresMarks(t: Typing, b: byte, dirty: bool, rowDirty: seq<bool>)
    requires ValidFrame(t.frame) && |rowDirty| == |t.frame.rowDirty| && 0x20 <= b < 0x7f
    ensures SameUnderMarks(t, b, dirty, rowDirty)
  {
    hide Overwrite;
    var f := t.frame;
    if InFrame(f, f.cursorX, f.cursorY) {
      OverwriteIgnoresMarks(t, f.cursorX, f.cursorY, Glyph(b), dirty, rowDirty);
    }
  }

  lemma ControlIgnoresMarks(t: Typing, b: byte, dirty: bool, rowDirty: seq<bool>)
    requires ValidFrame(t.frame) && |rowDirty| == |t.frame.rowDirty| && b != 0x08 && !(0x20 <= b <= 0x7f)
    ensures SameUnderMarks(t, b, dirty, rowDirty)
  {
  }

  lemma ByteIgnoresMarks(t: Typing, b: byte, dirty: bool, rowDirty: seq<bool>)
    requires ValidFrame(t.frame) && |rowDirty| == |t.frame.rowDirty|
    ensures SameUnderMarks(t, b, dirty, rowDirty)
  {
    hide SameUnderMarks;
    if b == 0x08 || b == 0x7f {
      BackspaceIgnoresMarks(t, b, dirty, rowDirty);
    } else if 0x20 <= b < 0x7f {
      PrintableIgnoresMarks(t, b, dirty, rowDirty);
    } else {
      ControlIgnoresMarks(t, b, dirty, rowDirty);
    }
  }

  lemma EchoIgnoresMarks(f: Frame, bytes: seq<byte>, dirty: bool, rowDirty: seq<bool>)
    requires ValidFrame(f) && |rowDirty| == |f.rowDirty|
    ensures |Echoed(f, bytes).rowDirty| == |f.rowDirty|
    ensures Echoed(Marked(f, dirty, rowDirty), bytes) == Marked(Echoed(f, bytes), dirty, rowDirty)
  {
    TypingIgnoresMarks(Typing(f, []), bytes, dirty, rowDirty);
  }

  /** What a frame shows, with the keystrokes on it, does not depend on the dirty marks. */
  lemma ShownUnderMarks(m: Mirror, m': Mirror, t: Grid, echo: bool, pending: seq<byte>)
    requires ValidFrame(m.frame) && Cli.SameButMarks(m, m') && ShowsFrame(m, t, echo, pending)
    ensures ValidFrame(m'.frame) && ShowsFrame(m', t, echo, pending)
  {
    hide Echoed, UndoAll;
    UndoIgnoresMarks(m.frame, m.queue, m'.frame.dirty, m'.frame.rowDirty);
    EchoIgnoresMarks(Unpredicted(m), pending, m'.frame.dirty, m'.frame.rowDirty);
  }

  lemma PredictedShows(m: Mirror, bytes: seq<byte>, seqNum: nat, t: Grid, pending: seq<byte>)
    requires ValidFrame(m.frame) && ShowsFrame(m, t, true, pending)
    ensures ShowsFrame(Predict(m, bytes, seqNum), t, true, pending + bytes)
  {
    hide Echoed, UndoAll, Shows;
    PredictKeepsUnpredicted(m, bytes, seqNum);
    EchoedInTurn(Unpredicted(m), pending, bytes);
  }

  lemma StdinNumbers(c: Cli.Client, buf: seq<byte>, now: Time)
    requires Cli.ValidClient(c)
    ensures var f := EscapeFilter.Filter(c.escape, buf);
            Numbered(c, Cli.FeedStdin(c, buf, now).client)
            == if f.Disconnected() || f.sent == [] then [] else [Keystrokes(f.sent)]
  {
    hide Predict, EscapeFilter.Filter, Cli.CommandActions, Cli.Printable;
  }

  lemma StdinShows(c: Cli.Client, buf: seq<byte>, now: Time, t: Grid, echo: bool, pending: seq<byte>)
    requires Cli.ValidClient(c) && c.echoEnabled == echo && ShowsFrame(c.mirror, t, echo, pending)
    ensures var d := Cli.FeedStdin(c, buf, now).client;
            ShowsFrame(d.mirror, t, echo, EchoedKeys(pending, Numbered(c, d)))
  {
    hide Predict, EscapeFilter.Filter, Cli.CommandActions, ShowsFrame, Numbered;
    var f := EscapeFilter.Filter(c.escape, buf);
    var m := Cli.MarkDirty(c.mirror, Cli.Dirtying(f.commands));
    StdinNumbers(c, buf, now);
    ShownUnderMarks(c.mirror, m, t, echo, pending);
    if !f.Disconnected() && f.sent != [] {
      OneKeystroke(pending, f.sent);
      if echo {
        PredictedShows(m, f.sent, c.seqNum + 1, t, pending);
      } else {
        EchoOffShows(m, t, pending, EchoedKeys(pending, [Keystrokes(f.sent)]));
      }
    }
  }

  lemma OneKeystroke(pending: seq<byte>, keys: seq<byte>)
    ensures EchoedKeys(pending, [Keystrokes(keys)]) == if AllPrintable(keys) then pending + keys else pending
  {
    assert [Keystrokes(keys)][..0] == [];
  }

  /** With echo off it does not matter what was typed. */
  lemma EchoOffShows(m: Mirror, t: Grid, a: seq<byte>, b: seq<byte>)
    requires ValidFrame(m.frame) && ShowsFrame(m, t, false, a)
    ensures ShowsFrame(m, t, false, b)
  {
  }

  lemma WinchShows(c: Cli.Client, cols: u16, rows: u16, now: Time, t: Grid, echo: bool, pending: seq<byte>)
    requires Cli.ValidClient(c) && ShowsFrame(c.mirror, t, echo, pending)
    ensures var d := Cli.OnWinch(c, cols, rows, now).client;
            ShowsFrame(d.mirror, t, echo, EchoedKeys(pending, Numbered(c, d))) && Shows(d.mirror.frame, t)
  {
    hide UndoAll;
    var d := Cli.OnWinch(c, cols, rows, now).client;
    assert Numbered(c, d) == [Resize(cols, rows)];
    assert [Resize(cols, rows)][..0] == [];
    assert Unpredicted(d.mirror) == d.mirror.frame by { NothingToUndo(d.mirror.frame); }
  }

  lemma NothingToUndo(f: Frame)
    requires ValidFrame(f)
    ensures UndoAll(f, []) == f && Echoed(f, []) == f
  {
  }

  lemma TickShows(c: Cli.Client, incomplete: seq<Cli.Report>, now: Time, t: Grid, echo: bool, pending: seq<byte>)
    requires Cli.ValidClient(c) && ShowsFrame(c.mirror, t, echo, pending)
    ensures var d := Cli.Tick(c, incomplete, now).client;
            Cli.ValidClient(d) && ShowsFrame(d.mirror, t, echo, EchoedKeys(pending, Numbered(c, d)))
  {
    hide Cli.Tick, Cli.TickKeepalive, Cli.TickArq, ShowsFrame;
    Cli.TickValid(c, incomplete, now);
    Cli.TickChangesLittle(c, incomplete, now);
    ShownUnderMarks(c.mirror, Cli.Tick(c, incomplete, now).client.mirror, t, echo, pending);
    TickNumbersKeepalive(c, incomplete, now);
  }

  lemma TickNumbersKeepalive(c: Cli.Client, incomplete: seq<Cli.Report>, now: Time)
    ensures var n := Numbered(c, Cli.Tick(c, incomplete, now).client);
            (n == [] || n == [KeepAlive]) && forall pending: seq<byte> :: EchoedKeys(pending, n) == pending
  {
    hide Cli.Tick, Cli.Overdue;
    Cli.TickChangesLittle(c, incomplete, now);
    assert [KeepAlive][..0] == [];
  }

  /** What the screen shows since a frame: the grid and the keystrokes numbered since then. */
  ghost predicate ShownSince(y: Sys, from: nat, t: Grid, echo: bool, pending: seq<byte>)
    requires ValidSys(y)
  {
    && from <= |y.trace.log| && y.client.echoEnabled == echo
    && ShowsFrame(y.client.mirror, t, echo, EchoedKeys(pending, y.trace.log[from..]))
  }

  lemma LogStep(y: Sys, z: Sys, from: nat, t: Grid, echo: bool, pending: seq<byte>)
    requires ValidSys(y) && ValidSys(z) && from <= |y.trace.log| && |Numbered(y.client, z.client)| <= 1
    requires z.trace.log == y.trace.log + Numbered(y.client, z.client) && z.client.echoEnabled == echo
    requires ShowsFrame(z.client.mirror, t, echo,
                        EchoedKeys(EchoedKeys(pending, y.trace.log[from..]), Numbered(y.client, z.client)))
    ensures ShownSince(z, from, t, echo, pending)
  {
    hide ShowsFrame, Numbered;
    assert z.trace.log[from..] == y.trace.log[from..] + Numbered(y.client, z.client);
    OneMoreKey(pending, y.trace.log[from..], Numbered(y.client, z.client));
  }

  lemma SameShown(y: Sys, z: Sys, from: nat, t: Grid, echo: bool, pending: seq<byte>)
    requires ValidSys(y) && ValidSys(z) && ShownSince(y, from, t, echo, pending)
    requires z.client == y.client && z.trace.log == y.trace.log
    ensures ShownSince(z, from, t, echo, pending)
  {
  }

  lemma ShownStep(y: Sys, step: Step, from: nat, t: Grid, echo: bool, pending: seq<byte>)
    requires ValidSys(y) && Enabled(y, step) && ShownSince(y, from, t, echo, pending) && !step.event.ClientReceives?
    ensures ShownSince(Next(y, step), from, t, echo, pending)
  {
    hide ShowsFrame, Srv.Feed, Srv.Finish, Srv.FedOk, Fits, Cli.FeedStdin, Cli.OnWinch, Cli.Tick, Srv.ResetBy,
         SendTimesAfter, Numbered, EscapeFilter.Filter, EchoedKeys;
    var c, now, z, shown := y.client, step.now, Next(y, step), EchoedKeys(pending, y.trace.log[from..]);
    match step.event {
      case Stdin(buf) =>
        OthersFollow(c, buf, 0, 0, [], now);
        StdinShows(c, buf, now, t, echo, shown);
        StdinNumbers(c, buf, now);
        LogStep(y, z, from, t, echo, pending);
      case Winch(cols, rows) =>
        OthersFollow(c, [], cols, rows, [], now);
        WinchShows(c, cols, rows, now, t, echo, shown);
        AtMostOne(c, z.client);
        LogStep(y, z, from, t, echo, pending);
      case ClientTick(incomplete) =>
        OthersFollow(c, [], 0, 0, incomplete, now);
        TickShows(c, incomplete, now, t, echo, shown);
        AtMostOne(c, z.client);
        LogStep(y, z, from, t, echo, pending);
      case ServerReceives(p, env) =>
        FedFits(y, p, now, env);
        SameShown(y, z, from, t, echo, pending);
      case HandshakeArrives(p, env) =>
        FedFits(y, p, now, env);
        SameShown(y, z, from, t, echo, pending);
      case ServerTick(_) =>
        Srv.FinishValid(y.server, [], [], now, step.event.echo);
        SameShown(y, z, from, t, echo, pending);
      case ServerShutdown => SameShown(y, z, from, t, echo, pending);
      case PtyOutput(_, _) => SameShown(y, z, from, t, echo, pending);
    }
  }

  lemma AtMostOne(c: Cli.Client, d: Cli.Client)
    ensures |Numbered(c, d)| <= 1
  {
  }

  /** No packet reaches the client. */
  predicate Unheard(steps: seq<Step>) {
    forall s | s in steps :: !s.event.ClientReceives?
  }

  lemma {:induction false} ShownRun(y: Sys, steps: seq<Step>, from: nat, t: Grid, echo: bool, pending: seq<byte>)
    requires ValidSys(y) && ShownSince(y, from, t, echo, pending) && RunFrom(y, steps).Some? && Unheard(steps)
    ensures ShownSince(RunFrom(y, steps).value, from, t, echo, pending)
    decreases |steps|
  {
    hide Enabled, Next, ValidSys, ShownSince;
    if steps != [] {
      ShownRun(y, steps[..|steps| - 1], from, t, echo, pending);
      ShownStep(RunFrom(y, steps[..|steps| - 1]).value, steps[|steps| - 1], from, t, echo, pending);
    }
  }

  /**
   * From an accepted frame on, until the next packet, whatever is typed and whatever the server does:
   * when the frame's echo flag is off the screen shows exactly the frame's grid and nothing is pending;
   * when it is on, the screen is that grid with the keystrokes the frame left pending and then, in order,
   * those of every all-printable packet numbered since, echoed on it, and nothing else. A resize takes
   * them all off.
   */
  lemma PredictionsFollowTheFlag(g: Config, steps: seq<Step>, arrival: Step, later: seq<Step>)
    requires ValidConfig(g) && Run(g, steps).Some? && arrival.event.ClientReceives?
    requires Enabled(Run(g, steps).value, arrival)
    requires var p := arrival.event.serverPacket;
             && p.payload.FramePayload? && p.seqNum > Run(g, steps).value.client.ackSeq
             && !Cli.Panics(Run(g, steps).value.client, p)
    requires Unheard(later) && RunFrom(Next(Run(g, steps).value, arrival), later).Some?
    ensures var y, p := Run(g, steps).value, arrival.event.serverPacket;
            var z := RunFrom(Next(y, arrival), later).value;
            && p.seqNum in y.trace.recorded && |y.trace.log| <= |z.trace.log|
            && var left := Typed(Survivors(y.client.mirror.queue, Max(p.ack, p.seqNum)));
               ShowsFrame(z.client.mirror, y.trace.recorded[p.seqNum], p.payload.update.echo,
                          EchoedKeys(left, z.trace.log[|y.trace.log|..]))
  {
    hide Run, RunFrom, Cli.Feed, ShowsFrame, Survivors, Typed, Cli.Panics, EchoedKeys, Fits;
    var y, p := Run(g, steps).value, arrival.event.serverPacket;
    var left := Typed(Survivors(y.client.mirror.queue, Max(p.ack, p.seqNum)));
    Cli.PanicsExactly(y.client, p, arrival.now);
    AcceptedFrameIsExact(g, steps, p, arrival.now);
    FeedFollows(y.client, p, arrival.now);
    NeverMissingReference(g, steps, p, arrival.now);
    ArrivalShown(y, arrival, left);
    ShownRun(Next(y, arrival), later, |y.trace.log|, y.trace.recorded[p.seqNum], p.payload.update.echo, left);
  }

  lemma ArrivalShown(y: Sys, arrival: Step, left: seq<byte>)
    requires ValidSys(y) && Enabled(y, arrival) && arrival.event.ClientReceives?
    requires arrival.event.serverPacket.payload.FramePayload? && arrival.event.serverPacket.seqNum in y.trace.recorded
    requires var p := arrival.event.serverPacket;
             var f := Cli.Feed(y.client, p, arrival.now);
             && f.outcome.Applied? && f.client.echoEnabled == p.payload.update.echo
             && ShowsFrame(f.client.mirror, y.trace.recorded[p.seqNum], p.payload.update.echo, left)
    ensures var p := arrival.event.serverPacket;
            ShownSince(Next(y, arrival), |y.trace.log|, y.trace.recorded[p.seqNum], p.payload.update.echo, left)
  {
    hide Cli.Feed, ShowsFrame;
    var p := arrival.event.serverPacket;
    ReceiveWire(y.client, p, arrival.now);
    assert Numbered(y.client, Cli.Feed(y.client, p, arrival.now).client) == [];
    assert Next(y, arrival).trace.log == y.trace.log;
    assert y.trace.log[|y.trace.log|..] == [];
  }
}

/**
 * The server's `unreachable!()` and, with rows to show, the client's row index never fail, on any run, resets
 * included.
 */
module NoPanic {
  import opened Base
  import opened TerminalGrid
  import opened Protocol
  import opened Network
  import opened ClientWire
  import opened InputChannel
  import opened MirroredFrame
  import opened LocalEcho
  import opened ClientMirror
  import opened ScreenChannel
  import opened ScreenRuns
  import opened KeepaliveBackoff
  import Srv = ServerSession
  import Cli = ClientSession

  /** A packet of an established session is reliable or transient, never a handshake. */
  predicate InSession(q: ClientPacket) {
    q.sessionId != 0 && (Reliable(q.payload) || q.payload.Ack? || q.payload.FragmentNack?)
  }

  predicate BufferReliable(buffer: map<nat, ClientPayload>) {
    forall k | k in buffer :: Reliable(buffer[k])
  }

  predicate WireInv(c: Core, toServer: set<ClientPacket>) {
    && c.sessionId != 0 && (forall q | q in toServer :: InSession(q))
    && (forall k | k in c.unacked :: InSession(c.unacked[k].packet))
  }

  predicate SafeInv(y: Sys) {
    BufferReliable(y.server.outOfOrder) && WireInv(CoreOf(y.client), y.toServer)
  }

  /** The buffer stays free of handshakes, and no action is the panic. */
  predicate Safe(f: Srv.Fed) {
    BufferReliable(f.server.outOfOrder) && Srv.Panic !in f.Actions()
  }

  lemma FinishSafe(s: Srv.Server, replies: seq<Srv.ServerAction>, items: seq<Srv.Item>, now: Time, echo: bool)
    requires BufferReliable(s.outOfOrder) && Srv.Panic !in replies
    ensures Safe(Srv.Finish(s, replies, items, now, echo))
  {
    hide Srv.CheckSync;
    SyncChangesLittle(s, now, echo);
  }

  lemma ReleasedSafe(s: Srv.Server, p: ClientPacket)
    requires BufferReliable(s.outOfOrder) && Reliable(p.payload)
    ensures AllReliable(Srv.Released(s, p)) && BufferReliable(Srv.Advance(s, p).outOfOrder)
  {
    hide Srv.Contiguous, Srv.Remaining;
    ContiguousIs(s.outOfOrder, s.expected + 1);
    var items := Srv.Contiguous(s.outOfOrder, s.expected + 1);
    forall i | i in Srv.Released(s, p) ensures Reliable(i.payload) {
      if i in items {
        var k :| 0 <= k < |items| && items[k] == i;
      }
    }
  }

  lemma FeedSafe(s: Srv.Server, p: ClientPacket, now: Time, env: Srv.Env)
    requires BufferReliable(s.outOfOrder) && (p.sessionId == 0 || InSession(p))
    ensures Safe(Srv.Feed(s, p, now, env))
  {
    hide Srv.Finish, Srv.ProcessItems, Srv.Contiguous, Srv.Remaining;
    var s1 := s.(lastRecv := now);
    if p.sessionId == 0 {
      var r := Srv.Reset(s, p, now);
      FinishSafe(r, [Srv.SendPacket(ServerPacket(r.seqNum, p.seqNum, HandshakeAck(s.sessionId)))], [], now, env.echo);
    } else if Srv.IsTransient(p) {
      FinishSafe(if p.ack > s.clientAck then s1.(clientAck := p.ack) else s1,
                 match p.payload
                 case FragmentNack(frameSeq, mask) => [Srv.ResendFragments(frameSeq, mask)]
                 case _ => [], [], now, env.echo);
    } else if p.seqNum == s.expected {
      var s2, items := Srv.Advance(s1, p), Srv.Released(s1, p);
      var done := Srv.ProcessItems(s2, items, env.resized);
      ReleasedSafe(s1, p);
      ItemsWrite(s2, items, env.resized);
      Srv.ProcessChangesLittle(s2, items, env.resized);
      FinishSafe(done.server, done.replies, items, now, env.echo);
    }
  }

  // ----- the client's side -----

  lemma ReliableSafe(c: Cli.Client, c': Cli.Client, sent: set<ClientPacket>, payload: ClientPayload, now: Time,
                     toServer: set<ClientPacket>)
    requires SendsReliable(c, c', sent, payload, now) && Reliable(payload) && WireInv(CoreOf(c), toServer)
    ensures WireInv(CoreOf(c'), toServer + sent)
  {
  }

  lemma TransientSafe(c: Cli.Client, core: Core, sent: set<ClientPacket>, toServer: set<ClientPacket>)
    requires AllTransient(sent, c) && c.sessionId != 0 && WireInv(core, toServer)
    ensures WireInv(core, toServer + sent)
  {
  }

  lemma TickSafe(c: Cli.Client, incomplete: seq<Cli.Report>, now: Time, toServer: set<ClientPacket>)
    requires WireInv(CoreOf(c), toServer)
    ensures var k := Cli.Tick(c, incomplete, now);
            WireInv(CoreOf(k.client),
                    toServer + (SentBy(k.before) + ResentPackets(k.client.unacked, k.resent) + SentBy(k.later)))
  {
    hide Cli.Tick, Cli.TickKeepalive, InSession, SendsReliable;
    var k := Cli.Tick(c, incomplete, now);
    var t := Cli.TickKeepalive(c, now);
    TickWire(c, incomplete, now);
    var wire := toServer + SentBy(k.before);
    assert toServer + {} == toServer;
    if SendsReliable(c, t.client, SentBy(k.before), KeepAlive, now) {
      ReliableSafe(c, t.client, SentBy(k.before), KeepAlive, now, toServer);
    }
    assert WireInv(CoreOf(t.client), wire);
    assert WireInv(CoreOf(k.client), wire + ResentPackets(k.client.unacked, k.resent));
    TransientSafe(c, CoreOf(k.client), SentBy(k.later), wire + ResentPackets(k.client.unacked, k.resent));
    assert wire + ResentPackets(k.client.unacked, k.resent) + SentBy(k.later) ==
           toServer + (SentBy(k.before) + ResentPackets(k.client.unacked, k.resent) + SentBy(k.later));
  }

  lemma SendSafe(c: Cli.Client, c': Cli.Client, sent: set<ClientPacket>, payload: ClientPayload, now: Time,
                 toServer: set<ClientPacket>)
    requires SendsNothing(c, c', sent) || SendsReliable(c, c', sent, payload, now)
    requires Reliable(payload) && WireInv(CoreOf(c), toServer)
    ensures WireInv(CoreOf(c'), toServer + sent)
  {
    hide WireInv, SendsReliable;
    assert toServer + {} == toServer;
    if SendsReliable(c, c', sent, payload, now) {
      ReliableSafe(c, c', sent, payload, now, toServer);
    }
  }

  lemma ReceiveSafe(c: Cli.Client, p: ServerPacket, now: Time, toServer: set<ClientPacket>)
    requires Cli.ValidClient(c) && WireInv(CoreOf(c), toServer)
    ensures var f := Cli.Feed(c, p, now); WireInv(CoreOf(f.client), toServer + SentBy(f.actions))
  {
    hide Cli.Feed, InSession;
    ReceiveWire(c, p, now);
    var f := Cli.Feed(c, p, now);
    assert WireInv(CoreOf(f.client), toServer);
    TransientSafe(f.client, CoreOf(f.client), SentBy(f.actions), toServer);
  }

  lemma StepSafe(y: Sys, step: Step)
    requires ValidSys(y) && Enabled(y, step) && SafeInv(y)
    ensures SafeInv(Next(y, step))
  {
    hide Srv.Feed, Srv.Finish, Fits, Cli.Feed, Cli.FeedStdin, Cli.OnWinch, Cli.Tick, EscapeFilter.Filter, WireInv,
         BufferReliable, Numbered, SendTimesAfter, SendsReliable, SendsNothing, SentBy;
    var c, now := y.client, step.now;
    match step.event {
      case ClientReceives(p) => ReceiveSafe(c, p, now, y.toServer);
      case ServerReceives(p, env) =>
        OnWire(y, p);
        FeedSafe(y.server, p, now, env);
      case HandshakeArrives(p, env) => FeedSafe(y.server, p, now, env);
      case ServerTick(echo) => FinishSafe(y.server, [], [], now, echo);
      case Stdin(buf) =>
        StdinWire(c, buf, now);
        var o := Cli.FeedStdin(c, buf, now);
        SendSafe(c, o.client, SentBy(o.actions), Keystrokes(EscapeFilter.Filter(c.escape, buf).sent), now, y.toServer);
      case Winch(cols, rows) =>
        WinchWire(c, cols, rows, now);
        var o := Cli.OnWinch(c, cols, rows, now);
        SendSafe(c, o.client, SentBy(o.actions), Resize(cols, rows), now, y.toServer);
      case ClientTick(incomplete) => TickSafe(c, incomplete, now, y.toServer);
      case _ =>
    }
  }

  lemma OnWire(y: Sys, p: ClientPacket)
    requires SafeInv(y) && p in y.toServer
    ensures InSession(p)
  {
  }

  lemma {:induction false} RunSafe(g: Config, steps: seq<Step>)
    requires ValidConfig(g) && Run(g, steps).Some?
    ensures SafeInv(Run(g, steps).value)
    decreases |steps|
  {
    hide Enabled, Next, ValidSys;
    if steps != [] {
      hide SafeInv;
      RunSafe(g, steps[..|steps| - 1]);
      StepSafe(Run(g, steps[..|steps| - 1]).value, steps[|steps| - 1]);
    }
  }

  /** On every run, whatever arrives next at the server, it does not panic. */
  lemma ServerNeverPanics(g: Config, steps: seq<Step>, p: ClientPacket, now: Time, env: Srv.Env)
    requires ValidConfig(g) && Run(g, steps).Some? && (p in Run(g, steps).value.toServer || p.sessionId == 0)
    ensures Srv.Panic !in Srv.Feed(Run(g, steps).value.server, p, now, env).Actions()
  {
    hide Run, Srv.Feed;
    RunSafe(g, steps);
    FeedSafe(Run(g, steps).value.server, p, now, env);
  }

  // ----- the client -----

  /** The terminal never reports a screen without rows. */
  predicate StepHasRows(step: Step) {
    match step.event
    case PtyOutput(_, screen) => screen.rows > 0
    case ServerReceives(_, env) => env.resized.rows > 0
    case HandshakeArrives(_, env) => env.resized.rows > 0
    case _ => true
  }

  predicate HaveRows(steps: seq<Step>) {
    forall s | s in steps :: StepHasRows(s)
  }

  predicate RowsInv(y: Sys) {
    y.server.screen.rows > 0 && y.client.mirror.frame.rows > 0
        && forall n | n in y.trace.recorded :: y.trace.recorded[n].rows > 0
  }

  lemma FinishScreen(s: Srv.Server, replies: seq<Srv.ServerAction>, items: seq<Srv.Item>, now: Time, echo: bool)
    ensures var f := Srv.Finish(s, replies, items, now, echo);
            f.server.screen == s.screen && (f.job.Some? ==> f.job.value.current == s.screen)
  {
    hide Srv.CheckSync;
    SyncChangesLittle(s, now, echo);
  }

  lemma FeedScreen(s: Srv.Server, p: ClientPacket, now: Time, env: Srv.Env)
    ensures var f := Srv.Feed(s, p, now, env);
            && (f.server.screen == s.screen || f.server.screen == env.resized)
            && (f.job.Some? ==> f.job.value.current == f.server.screen)
  {
    hide Srv.Finish, Srv.ProcessItems, Srv.Contiguous, Srv.Remaining;
    var s1 := s.(lastRecv := now);
    if p.sessionId == 0 {
      var r := Srv.Reset(s, p, now);
      FinishScreen(r, [Srv.SendPacket(ServerPacket(r.seqNum, p.seqNum, HandshakeAck(s.sessionId)))], [], now, env.echo);
    } else if Srv.IsTransient(p) {
      FinishScreen(if p.ack > s.clientAck then s1.(clientAck := p.ack) else s1,
                   match p.payload
                   case FragmentNack(frameSeq, mask) => [Srv.ResendFragments(frameSeq, mask)]
                   case _ => [], [], now, env.echo);
    } else if p.seqNum == s.expected {
      var done := Srv.ProcessItems(Srv.Advance(s1, p), Srv.Released(s1, p), env.resized);
      Srv.ProcessChangesLittle(Srv.Advance(s1, p), Srv.Released(s1, p), env.resized);
      FinishScreen(done.server, done.replies, Srv.Released(s1, p), now, env.echo);
    }
  }

  lemma ServerStepRows(y: Sys, f: Srv.Fed, now: Time, reset: bool)
    requires RowsInv(y) && Srv.FedOk(f) && f.server.screen.rows > 0 && (f.job.Some? ==> f.job.value.current.rows > 0)
    ensures RowsInv(AfterServer(y, f, now, reset))
  {
    hide Srv.ValidServer, Srv.ValidJob, Srv.RunJob;
  }

  lemma {:induction false} UndoKeepsShape(f: Frame, queue: seq<PredictionEntry>)
    requires ValidFrame(f)
    ensures SameShape(UndoAll(f, queue), f)
    decreases |queue|
  {
    if queue != [] {
      UndoKeepsShape(UndoEntry(f, queue[|queue| - 1]), queue[..|queue| - 1]);
    }
  }

  /** The mirror after a frame has the grid's rows. */
  lemma MirroredRows(m: Mirror, t: Grid, seqNum: nat, echo: bool)
    requires ValidFrame(m.frame) && WellFormed(t)
    ensures Cli.Mirrored(m, t, seqNum, echo).frame.rows == t.rows
  {
    hide Reconcile, UndoAll;
    var m1 := m.(frame := UpdateFrom(m.frame, t).(lastSeq := seqNum));
    ReconcileKeepsShape(m1, seqNum);
    UndoKeepsShape(ApplyFrame(m, t, seqNum).frame, ApplyFrame(m, t, seqNum).queue);
  }

  lemma ClientStepRows(c: Cli.Client, buf: seq<byte>, cols: u16, rows: u16, incomplete: seq<Cli.Report>, now: Time)
    requires Cli.ValidClient(c)
    ensures Cli.FeedStdin(c, buf, now).client.mirror.frame.rows == c.mirror.frame.rows
    ensures Cli.OnWinch(c, cols, rows, now).client.mirror.frame.rows == c.mirror.frame.rows
    ensures Cli.Tick(c, incomplete, now).client.mirror.frame.rows == c.mirror.frame.rows
  {
    hide TypeBytes, UndoAll, EscapeFilter.Filter, Cli.Tick, Cli.TickArq, Cli.TickKeepalive, Cli.CommandActions;
    var f := EscapeFilter.Filter(c.escape, buf);
    var m := Cli.MarkDirty(c.mirror, Cli.Dirtying(f.commands));
    TypingKeepsShape(Typing(m.frame, []), f.sent);
    UndoKeepsShape(c.mirror.frame, c.mirror.queue);
    Cli.TickChangesLittle(c, incomplete, now);
  }

  lemma ReceiveRows(y: Sys, p: ServerPacket, now: Time)
    requires ValidSys(y) && ScreenInv(y) && RowsInv(y) && p in y.toClient
    ensures RowsInv(AfterReceive(y, p, now))
  {
    hide ScreenInv, Cli.Feed, Cli.Heard, Cli.Receive, Cli.Mirrored, ClientSide, PacketOk, Fits;
    var c, f := y.client, Cli.Feed(y.client, p, now);
    OnTheWire(y, p);
    ReceiveExact(c, LedgerOf(y), p, now);
    if f.outcome.Applied? {
      RecordedFits(y, p.seqNum);
      MirroredRows(Cli.Heard(Cli.Receive(c, p, now), p.seqNum, now).mirror, y.trace.recorded[p.seqNum], p.seqNum,
                   p.payload.update.echo);
    } else {
      OtherRows(c, p, now);
    }
  }

  lemma RecordedFits(y: Sys, n: nat)
    requires ScreenInv(y) && n in y.trace.recorded
    ensures WellFormed(y.trace.recorded[n])
  {
  }

  lemma OtherRows(c: Cli.Client, p: ServerPacket, now: Time)
    requires Cli.ValidClient(c) && !Cli.Feed(c, p, now).outcome.Applied?
    ensures Cli.Feed(c, p, now).client.mirror.frame.rows == c.mirror.frame.rows
  {
    hide Reconcile, Cli.LossAfter, Cli.RttAfter, Patch, Cli.StartFor, Cli.Mirrored;
    ReconcileKeepsShape(c.mirror, p.ack);
  }

  lemma StepRows(y: Sys, step: Step)
    requires ValidSys(y) && Enabled(y, step) && ScreenInv(y) && RowsInv(y) && StepHasRows(step)
    ensures RowsInv(Next(y, step))
  {
    hide ScreenInv, Srv.Feed, Srv.Finish, Fits, Cli.Feed, Cli.FeedStdin, Cli.OnWinch, Cli.Tick, AfterServer,
         Srv.FedOk, Srv.ResetBy, AfterReceive;
    var s, c, now := y.server, y.client, step.now;
    match step.event {
      case ClientReceives(p) => ReceiveRows(y, p, now);
      case ServerReceives(p, env) =>
        FeedScreen(s, p, now, env);
        FedFits(y, p, now, env);
        ServerStepRows(y, Srv.Feed(s, p, now, env), now, p.sessionId == 0 && Srv.ResetBy(s, now));
      case HandshakeArrives(p, env) =>
        FeedScreen(s, p, now, env);
        FedFits(y, p, now, env);
        ServerStepRows(y, Srv.Feed(s, p, now, env), now, Srv.ResetBy(s, now));
      case PtyOutput(_, _) =>
      case ServerTick(echo) =>
        FinishScreen(s, [], [], now, echo);
        Srv.FinishValid(s, [], [], now, echo);
        ServerStepRows(y, Srv.Finish(s, [], [], now, echo), now, false);
      case ServerShutdown =>
        ShutdownScreen(s);
        ServerStepRows(y, Srv.PrepareShutdown(s), now, false);
      case Stdin(buf) => ClientStepRows(c, buf, 0, 0, [], now);
      case Winch(cols, rows) => ClientStepRows(c, [], cols, rows, [], now);
      case ClientTick(incomplete) => ClientStepRows(c, [], 0, 0, incomplete, now);
    }
  }

  lemma ShutdownScreen(s: Srv.Server)
    requires Srv.ValidServer(s)
    ensures var f := Srv.PrepareShutdown(s); Srv.FedOk(f) && f.server.screen == s.screen && f.job.None?
  {
  }

  lemma {:induction false} RunRows(g: Config, steps: seq<Step>)
    requires ValidConfig(g) && Run(g, steps).Some? && HaveRows(steps) && g.screen.rows > 0 && g.mirror.frame.rows > 0
    ensures RowsInv(Run(g, steps).value)
    decreases |steps|
  {
    hide Enabled, Next, ValidSys, StepHasRows;
    if steps != [] {
      hide RowsInv, ScreenInv;
      var before := steps[..|steps| - 1];
      RunRows(g, before);
      RunKeeps(g, before);
      assert steps[|steps| - 1] in steps;
      StepRows(Run(g, before).value, steps[|steps| - 1]);
    }
  }

  /**
   * A client panics on a packet only when an outage ends over a mirror without rows. On every run where
   * neither the first mirror nor any screen lacks rows, no packet makes it panic.
   */
  lemma ClientNeverPanics(g: Config, steps: seq<Step>, p: ServerPacket, now: Time)
    requires ValidConfig(g) && Run(g, steps).Some? && HaveRows(steps) && g.screen.rows > 0 && g.mirror.frame.rows > 0
    ensures !Cli.Feed(Run(g, steps).value.client, p, now).outcome.Panicked?
  {
    hide Run, Cli.Feed;
    RunRows(g, steps);
    Cli.PanicsExactly(Run(g, steps).value.client, p, now);
  }

  // ----- the panic is reached -----

  /** A silent tick after five seconds raises the banner over the same rows, whatever the mirror. */
  lemma SilentTick(c: Cli.Client, now: Time)
    requires now - c.lastRecv > Cli.OUTAGE
    ensures var d := Cli.Tick(c, [], now).client;
            d.reconnecting && d.ackSeq == c.ackSeq && d.mirror.frame.rows == c.mirror.frame.rows
  {
    hide Cli.Tick, Cli.TickArq, Cli.TickKeepalive;
    Cli.TickChangesLittle(c, [], now);
    TickBackoff(c, [], now);
    QuietKeeps(c, now);
  }

  lemma QuietKeeps(c: Cli.Client, now: Time)
    ensures Cli.TickArq(Cli.TickKeepalive(c, now).client, now).ackSeq == c.ackSeq
    ensures Cli.TickArq(Cli.TickKeepalive(c, now).client, now).mirror.frame.rows == c.mirror.frame.rows
  {
    hide Cli.Overdue, Cli.MarkSent;
  }

  /**
   * The rows are needed: from every valid start over a mirror without rows, five silent seconds and the
   * server's shutdown put a packet on the wire that makes the client panic.
   */
  lemma PanicReached(g: Config) returns (steps: seq<Step>, p: ServerPacket)
    requires ValidConfig(g) && g.mirror.frame.rows == 0
    ensures Run(g, steps).Some? && p in Run(g, steps).value.toClient
    ensures forall now: Time :: Cli.Feed(Run(g, steps).value.client, p, now).outcome.Panicked?
  {
    hide Cli.Tick, Cli.Feed, Srv.ValidServer, AfterClient, AfterTick, RunFrom;
    var now := g.now + Cli.OUTAGE + 1;
    var silence, shutdown := Step(now, ClientTick([])), Step(now, ServerShutdown);
    steps := [silence] + [shutdown];
    p := ServerPacket(1, 0, Shutdown);
    InitValid(g);
    SilentTick(Init(g).client, now);
    RunOne(Init(g), silence);
    var y := Next(Init(g), silence);
    AfterSilence(g, now);
    RunOne(y, shutdown);
    RunFromJoin(Init(g), [silence], [shutdown]);
    ShutdownSends(y, shutdown);
    forall at: Time ensures Cli.Feed(Run(g, steps).value.client, p, at).outcome.Panicked? {
      Cli.PanicsExactly(Run(g, steps).value.client, p, at);
    }
  }

  lemma AfterSilence(g: Config, now: Time)
    requires ValidConfig(g) && ValidSys(Init(g)) && now >= g.now
    ensures Enabled(Init(g), Step(now, ClientTick([])))
    ensures var y := Next(Init(g), Step(now, ClientTick([])));
            y.server == Init(g).server && y.clock == now && y.client == Cli.Tick(Init(g).client, [], now).client
  {
    hide Cli.Tick;
  }

  lemma ShutdownSends(y: Sys, step: Step)
    requires ValidSys(y) && Enabled(y, step) && step.event.ServerShutdown?
    ensures Next(y, step).client == y.client
    ensures ServerPacket(y.server.seqNum + 1, 0, Shutdown) in Next(y, step).toClient
  {
    var f := Srv.PrepareShutdown(y.server);
    var p := ServerPacket(y.server.seqNum + 1, 0, Shutdown);
    assert f.replies[0] == Srv.SendPacket(p);
    assert p in Replied(f.replies);
  }
}

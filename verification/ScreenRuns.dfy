/** The screen channel's invariant is kept by every step, so its theorems hold on every run. */
module ScreenRuns {
  import opened Base
  import opened TerminalGrid
  import opened MirroredFrame
  import opened LocalEcho
  import opened ClientMirror
  import opened Protocol
  import opened Network
  import opened ClientWire
  import opened ScreenChannel
  import Srv = ServerSession
  import Cli = ClientSession

  function LedgerOf(y: Sys): (r: Ledger) {
    Ledger(y.server.seqNum, y.trace.recorded, y.trace.applied)
  }

  predicate AcksOk(c: Core, toServer: set<ClientPacket>, l: Ledger) {
    && (forall q | q in toServer :: AckOk(q.ack, l))
    && (forall k | k in c.unacked :: AckOk(c.unacked[k].packet.ack, l))
  }

  predicate ScreenInv(y: Sys) {
    && ServerSide(y.server, y.toClient, LedgerOf(y))
    && ClientSide(y.client.ackSeq, y.client.history, LedgerOf(y))
    && AcksOk(CoreOf(y.client), y.toServer, LedgerOf(y))
  }

  // ----- acknowledgements on the wire -----

  lemma AcksStable(c: Core, toServer: set<ClientPacket>, l: Ledger, l': Ledger)
    requires Grows(l, l') && AcksOk(c, toServer, l)
    ensures AcksOk(c, toServer, l')
  {
  }

  lemma ReliableAcks(c: Cli.Client, c': Cli.Client, sent: set<ClientPacket>, payload: ClientPayload, now: Time,
                     toServer: set<ClientPacket>, l: Ledger)
    requires SendsReliable(c, c', sent, payload, now) && AcksOk(CoreOf(c), toServer, l) && AckOk(c.ackSeq, l)
    ensures AcksOk(CoreOf(c'), toServer + sent, l)
  {
    hide AckOk;
  }

  lemma TransientAcks(c: Cli.Client, core: Core, sent: set<ClientPacket>, toServer: set<ClientPacket>, l: Ledger)
    requires AllTransient(sent, c) && AckOk(c.ackSeq, l) && AcksOk(core, toServer, l)
    ensures AcksOk(core, toServer + sent, l)
  {
  }

  lemma TickAcks(c: Cli.Client, incomplete: seq<Cli.Report>, now: Time, toServer: set<ClientPacket>, l: Ledger)
    requires AcksOk(CoreOf(c), toServer, l) && AckOk(c.ackSeq, l)
    ensures var k := Cli.Tick(c, incomplete, now);
            AcksOk(CoreOf(k.client),
                   toServer + (SentBy(k.before) + ResentPackets(k.client.unacked, k.resent) + SentBy(k.later)), l)
  {
    hide Cli.Tick, Cli.TickKeepalive, AckOk, SendsReliable;
    var k := Cli.Tick(c, incomplete, now);
    var t := Cli.TickKeepalive(c, now);
    TickWire(c, incomplete, now);
    var wire := toServer + SentBy(k.before);
    assert toServer + {} == toServer;
    if SendsReliable(c, t.client, SentBy(k.before), KeepAlive, now) {
      ReliableAcks(c, t.client, SentBy(k.before), KeepAlive, now, toServer, l);
    }
    assert AcksOk(CoreOf(t.client), wire, l);
    assert AcksOk(CoreOf(k.client), wire + ResentPackets(k.client.unacked, k.resent), l);
    TransientAcks(c, CoreOf(k.client), SentBy(k.later), wire + ResentPackets(k.client.unacked, k.resent), l);
    assert wire + ResentPackets(k.client.unacked, k.resent) + SentBy(k.later) ==
           toServer + (SentBy(k.before) + ResentPackets(k.client.unacked, k.resent) + SentBy(k.later));
  }

  // ----- steps -----

  /** A server entry point, seen from both ends. */
  lemma ServerStepKeeps(y: Sys, f: Srv.Fed, now: Time, reset: bool)
    requires ScreenInv(y) && Srv.FedOk(f) && FedKeeps(f, y.toClient, LedgerOf(y))
    requires Grows(LedgerOf(y), LedgerAfter(LedgerOf(y), f.server, f.job))
    ensures ScreenInv(AfterServer(y, f, now, reset))
  {
    hide ServerSide, Srv.ValidServer, Fits, Increasing, Covers;
    var z := AfterServer(y, f, now, reset);
    assert LedgerOf(z) == LedgerAfter(LedgerOf(y), f.server, f.job);
    assert z.toClient == y.toClient + Replied(f.replies) + JobPacket(f.job);
    AcksStable(CoreOf(y.client), y.toServer, LedgerOf(y), LedgerOf(z));
    AckStable(y.client.ackSeq, LedgerOf(y), LedgerOf(z));
  }

  /** A client step that leaves the history and the acknowledgement alone. */
  lemma ClientStepKeeps(y: Sys, z: Sys, sent: set<ClientPacket>)
    requires ScreenInv(y) && z.server == y.server && z.toClient == y.toClient && LedgerOf(z) == LedgerOf(y)
    requires z.client.ackSeq == y.client.ackSeq && z.client.history == y.client.history
    requires z.toServer == y.toServer + sent && AcksOk(CoreOf(z.client), y.toServer + sent, LedgerOf(y))
    ensures ScreenInv(z)
  {
    hide ServerSide, ClientSide, AcksOk;
  }

  lemma InvUnfold(y: Sys)
    requires ScreenInv(y)
    ensures AcksOk(CoreOf(y.client), y.toServer, LedgerOf(y)) && AckOk(y.client.ackSeq, LedgerOf(y))
    ensures y.toServer + {} == y.toServer
  {
  }

  lemma StdinKeeps(y: Sys, buf: seq<byte>, now: Time)
    requires ValidSys(y) && ScreenInv(y)
    ensures ScreenInv(AfterStdin(y, buf, now))
  {
    hide ScreenInv, Cli.FeedStdin, EscapeFilter.Filter, AcksOk, AckOk, SendsReliable;
    StdinWire(y.client, buf, now);
    var o := Cli.FeedStdin(y.client, buf, now);
    InvUnfold(y);
    if SendsReliable(y.client, o.client, SentBy(o.actions), Keystrokes(EscapeFilter.Filter(y.client.escape, buf).sent),
                     now) {
      ReliableAcks(y.client, o.client, SentBy(o.actions), Keystrokes(EscapeFilter.Filter(y.client.escape, buf).sent),
                   now,
                   y.toServer, LedgerOf(y));
      ReliableKeepsHistory(y.client, o.client, SentBy(o.actions),
                           Keystrokes(EscapeFilter.Filter(y.client.escape, buf).sent), now);
    }
    ClientStepKeeps(y, AfterStdin(y, buf, now), SentBy(o.actions));
  }

  lemma ReliableKeepsHistory(c: Cli.Client, c': Cli.Client, sent: set<ClientPacket>, payload: ClientPayload, now: Time)
    requires SendsReliable(c, c', sent, payload, now)
    ensures c'.ackSeq == c.ackSeq && c'.history == c.history
  {
  }

  lemma WinchKeeps(y: Sys, cols: u16, rows: u16, now: Time)
    requires ValidSys(y) && ScreenInv(y)
    ensures var o := Cli.OnWinch(y.client, cols, rows, now);
            ScreenInv(AfterClient(y, o.client, SentBy(o.actions), {}, now))
  {
    hide ScreenInv, Cli.OnWinch, AcksOk, AckOk, SendsReliable;
    WinchWire(y.client, cols, rows, now);
    var o := Cli.OnWinch(y.client, cols, rows, now);
    InvUnfold(y);
    ReliableAcks(y.client, o.client, SentBy(o.actions), Resize(cols, rows), now, y.toServer, LedgerOf(y));
    ReliableKeepsHistory(y.client, o.client, SentBy(o.actions), Resize(cols, rows), now);
    ClientStepKeeps(y, AfterClient(y, o.client, SentBy(o.actions), {}, now), SentBy(o.actions));
  }

  lemma TickKeeps(y: Sys, incomplete: seq<Cli.Report>, now: Time)
    requires ValidSys(y) && ScreenInv(y)
    ensures ScreenInv(AfterTick(y, incomplete, now))
  {
    hide ScreenInv, Cli.Tick, AcksOk, AckOk, Cli.TickKeepalive, Cli.TickArq;
    var k := Cli.Tick(y.client, incomplete, now);
    InvUnfold(y);
    TickAcks(y.client, incomplete, now, y.toServer, LedgerOf(y));
    Cli.TickChangesLittle(y.client, incomplete, now);
    TickKeepsHistory(y.client, now);
    ClientStepKeeps(y, AfterTick(y, incomplete, now),
                    SentBy(k.before) + ResentPackets(k.client.unacked, k.resent) + SentBy(k.later));
  }

  lemma TickKeepsHistory(c: Cli.Client, now: Time)
    ensures var u := Cli.TickArq(Cli.TickKeepalive(c, now).client, now); u.ackSeq == c.ackSeq && u.history == c.history
  {
  }

  // ----- a packet arrives at the client -----

  /** What a received packet does when the channel's invariant holds: nothing can go wrong with a frame. */
  lemma ReceiveExact(c: Cli.Client, l: Ledger, p: ServerPacket, now: Time)
    requires Cli.ValidClient(c) && LedgerOk(l) && PacketOk(p, l) && ClientSide(c.ackSeq, c.history, l)
    ensures var f := Cli.Feed(c, p, now);
            && (f.outcome.Applied? <==> p.payload.FramePayload? && p.seqNum > c.ackSeq && !f.outcome.Panicked?)
            && !f.outcome.MissingReference? && !f.outcome.PatchFailed?
            && (f.outcome.Applied? ==>
                  && f.client.history == Record(c.history, Snapshot(p.seqNum, l.recorded[p.seqNum]))
                  && f.client.mirror == Cli.Mirrored(Cli.Heard(Cli.Receive(c, p, now), p.seqNum, now).mirror,
                                                     l.recorded[p.seqNum], p.seqNum, p.payload.update.echo))
  {
    hide ClientSide, FrameOk, Cli.AcceptFrame, Cli.AckIfDue, Cli.Receive, Cli.BannerDown, Cli.Mirrored, Fits;
    var c2 := Cli.Heard(Cli.Receive(c, p, now), p.seqNum, now);
    HeardKeeps(c, p, now);
    if p.seqNum > c.ackSeq && p.payload.FramePayload? {
      AcceptFrameExact(c2, l, p.seqNum, p.payload.update, now, c.ackSeq);
      AckWire(Shown(c2, p.seqNum, l.recorded[p.seqNum], p.payload.update.echo), now);
    }
  }

  lemma HeardKeeps(c: Cli.Client, p: ServerPacket, now: Time)
    requires Cli.ValidClient(c)
    ensures Cli.Receive(c, p, now).ackSeq == c.ackSeq
    ensures var c2 := Cli.Heard(Cli.Receive(c, p, now), p.seqNum, now); c2.ackSeq == p.seqNum && c2.history == c.history
  {
    hide Reconcile, Cli.LossAfter, Cli.RttAfter, ShowBanner;
  }

  lemma NonFrameKeeps(ackSeq: nat, history: seq<Snapshot>, l: Ledger, n: nat)
    requires LedgerOk(l) && ClientSide(ackSeq, history, l) && ackSeq < n <= l.top && n !in l.recorded
    ensures ClientSide(n, history, l)
  {
    hide Fits, Covers, Increasing, HistoryAgrees;
  }

  lemma ServerSideStable(s: Srv.Server, packets: set<ServerPacket>, l: Ledger, l': Ledger)
    requires ServerSide(s, packets, l) && Grows(l, l') && l'.top == l.top && l'.recorded == l.recorded
    ensures ServerSide(s, packets, l')
  {
    hide PacketsOk, Fits, HistoryAgrees;
    PacketsStable(packets, l, l');
  }

  lemma OnTheWire(y: Sys, p: ServerPacket)
    requires ScreenInv(y) && p in y.toClient
    ensures LedgerOk(LedgerOf(y)) && PacketOk(p, LedgerOf(y))
            && ClientSide(y.client.ackSeq, y.client.history, LedgerOf(y))
    ensures 1 <= p.seqNum <= LedgerOf(y).top && (p.payload.FramePayload? <==> p.seqNum in y.trace.recorded)
  {
  }

  /** What the server still remembers of a frame is the grid recorded for it. */
  lemma RememberedIsRecorded(y: Sys, n: nat)
    requires ScreenInv(y) && Find(y.server.history, n).Some?
    ensures n in y.trace.recorded && Find(y.server.history, n).value == y.trace.recorded[n]
  {
    hide PacketsOk, ClientSide, AcksOk, Fits;
    FindSound(y.server.history, n);
  }

  function AppliedAfter(applied: set<nat>, f: Cli.Fed, p: ServerPacket): (r: set<nat>) {
    if f.outcome.Applied? then applied + {p.seqNum} else applied
  }

  /** Only the clock moves. */
  lemma ClockKeeps(y: Sys, now: Time)
    requires ScreenInv(y)
    ensures ScreenInv(y.(clock := now))
  {
    hide ServerSide, ClientSide, AcksOk;
  }

  lemma ReceiveKeeps(y: Sys, p: ServerPacket, now: Time)
    requires ValidSys(y) && ScreenInv(y) && p in y.toClient
    ensures ScreenInv(AfterReceive(y, p, now))
  {
    if Cli.Feed(y.client, p, now).outcome.Panicked? {
      hide ScreenInv;
      ClockKeeps(y, now);
    } else {
      hide ScreenInv, Cli.Feed, AfterFed;
      FedClientKeeps(y, p, now);
    }
  }

  lemma FedClientKeeps(y: Sys, p: ServerPacket, now: Time)
    requires ValidSys(y) && ScreenInv(y) && p in y.toClient && !Cli.Feed(y.client, p, now).outcome.Panicked?
    ensures ScreenInv(AfterFed(y, Cli.Feed(y.client, p, now), p, now))
  {
    hide ScreenInv, ServerSide, ClientSide, PacketOk, Cli.Feed, Fits, AcksOk, AllTransient, Grows, Cli.Mirrored;
    var f := Cli.Feed(y.client, p, now);
    var l, z := LedgerOf(y), AfterFed(y, f, p, now);
    OnTheWire(y, p);
    ReceiveWire(y.client, p, now);
    ReceiveExact(y.client, l, p, now);
    var l' := l.(applied := AppliedAfter(l.applied, f, p));
    assert LedgerOf(z) == l';
    ReceiveClientSide(y.client, l, p, f);
    InvServerSide(y);
    GrowsTo(l, l', p.seqNum);
    ServerSideStable(y.server, y.toClient, l, l');
    ReceiveAcks(y, p, f, l, l');
    assert z.server == y.server && z.toClient == y.toClient && z.client == f.client;
    assert z.toServer == y.toServer + SentBy(f.actions);
    InvFold(z);
  }

  lemma InvServerSide(y: Sys)
    requires ScreenInv(y)
    ensures ServerSide(y.server, y.toClient, LedgerOf(y))
  {
  }

  lemma InvFold(y: Sys)
    requires ServerSide(y.server, y.toClient, LedgerOf(y)) && ClientSide(y.client.ackSeq, y.client.history, LedgerOf(y))
    requires AcksOk(CoreOf(y.client), y.toServer, LedgerOf(y))
    ensures ScreenInv(y)
  {
  }

  lemma GrowsTo(l: Ledger, l': Ledger, n: nat)
    requires LedgerOk(l) && (l' == l || (l' == l.(applied := l.applied + {n}) && n in l.recorded))
    ensures Grows(l, l')
  {
  }

  lemma ReceiveClientSide(c: Cli.Client, l: Ledger, p: ServerPacket, f: Cli.Fed)
    requires LedgerOk(l) && ClientSide(c.ackSeq, c.history, l) && 1 <= p.seqNum <= l.top
    requires p.payload.FramePayload? <==> p.seqNum in l.recorded
    requires f.outcome.Applied? <==> p.payload.FramePayload? && p.seqNum > c.ackSeq
    requires f.client.ackSeq == Max(c.ackSeq, p.seqNum) && (!f.outcome.Applied? ==> f.client.history == c.history)
    requires f.outcome.Applied? ==> f.client.history == Record(c.history, Snapshot(p.seqNum, l.recorded[p.seqNum]))
    ensures ClientSide(f.client.ackSeq, f.client.history, l.(applied := AppliedAfter(l.applied, f, p)))
  {
    hide ClientSide, Fits, Record;
    if f.outcome.Applied? {
      RememberKeeps(c.ackSeq, c.history, l, p.seqNum);
    } else {
      assert l.(applied := l.applied) == l;
      if p.seqNum > c.ackSeq {
        NonFrameKeeps(c.ackSeq, c.history, l, p.seqNum);
      }
    }
  }

  lemma ReceiveAcks(y: Sys, p: ServerPacket, f: Cli.Fed, l: Ledger, l': Ledger)
    requires ScreenInv(y) && l == LedgerOf(y) && Grows(l, l')
    requires f.client.unacked == Cli.Above(y.client.unacked, p.ack) && AllTransient(SentBy(f.actions), f.client)
    requires ClientSide(f.client.ackSeq, f.client.history, l')
    ensures AcksOk(CoreOf(f.client), y.toServer + SentBy(f.actions), l')
  {
    hide Increasing, Covers, HistoryAgrees, ServerSide, Grows, Fits;
    AcksStable(CoreOf(y.client), y.toServer, l, l');
    assert AcksOk(CoreOf(f.client), y.toServer, l');
    TransientAcks(f.client, CoreOf(f.client), SentBy(f.actions), y.toServer, l');
  }

  // ----- every step, every run -----

  lemma FinishStepKeeps(y: Sys, now: Time, echo: bool)
    requires ValidSys(y) && ScreenInv(y)
    ensures var f := Srv.Finish(y.server, [], [], now, echo);
            Srv.FedOk(f) && ScreenInv(AfterServer(y, f, now, false))
  {
    hide Srv.Finish, ScreenInv, ServerSide;
    var l := LedgerOf(y);
    InvServerSide(y);
    TopIs(y.server, y.toClient, l);
    assert l.(top := y.server.seqNum) == l;
    assert Grows(l, l);
    assert y.toClient + Replied([]) == y.toClient;
    FinishKeeps(y.server, y.toClient, l, [], [], now, echo);
    ServerStepKeeps(y, Srv.Finish(y.server, [], [], now, echo), now, false);
  }

  lemma ShutdownKeeps(y: Sys, now: Time)
    requires ValidSys(y) && ScreenInv(y)
    ensures ScreenInv(AfterServer(y, Srv.PrepareShutdown(y.server), now, false))
  {
    hide ScreenInv, ServerSide;
    var s, l, f := y.server, LedgerOf(y), Srv.PrepareShutdown(y.server);
    InvServerSide(y);
    TopIs(s, y.toClient, l);
    ControlKeeps(s, y.toClient, l, 0, Shutdown);
    assert f.replies[0] in f.replies;
    assert Replied(f.replies) == {ServerPacket(s.seqNum + 1, 0, Shutdown)};
    assert y.toClient + Replied(f.replies) + JobPacket(f.job) == y.toClient + {ServerPacket(s.seqNum + 1, 0, Shutdown)};
    ServerStepKeeps(y, f, now, false);
  }

  lemma PtyOutputKeeps(y: Sys, count: nat, screen: Grid, now: Time)
    requires ScreenInv(y) && Fits(screen)
    ensures ScreenInv(y.(server := Srv.PtyBytes(y.server, count, screen, now), clock := now))
  {
    hide PacketsOk, ClientSide, AcksOk, HistoryAgrees;
  }

  lemma FeedStepKeeps(y: Sys, p: ClientPacket, now: Time, env: Srv.Env, reset: bool)
    requires ValidSys(y) && ScreenInv(y) && Fits(env.resized) && (p in y.toServer || p.sessionId == 0)
    ensures Srv.FedOk(Srv.Feed(y.server, p, now, env))
            && ScreenInv(AfterServer(y, Srv.Feed(y.server, p, now, env), now, reset))
  {
    hide Srv.Feed, ServerSide, ClientSide;
    FeedKeeps(y.server, y.toClient, LedgerOf(y), p, now, env);
    ServerStepKeeps(y, Srv.Feed(y.server, p, now, env), now, reset);
  }

  lemma StepKeeps(y: Sys, step: Step)
    requires ValidSys(y) && Enabled(y, step) && ScreenInv(y)
    ensures ScreenInv(Next(y, step))
  {
    hide ScreenInv, AfterServer, AfterClient, AfterReceive, AfterStdin, AfterTick, Srv.Feed, Srv.Finish, Cli.OnWinch,
         Fits;
    var now := step.now;
    match step.event {
      case ClientReceives(p) => ReceiveKeeps(y, p, now);
      case ServerReceives(p, env) => FeedStepKeeps(y, p, now, env, p.sessionId == 0 && Srv.ResetBy(y.server, now));
      case HandshakeArrives(p, env) => FeedStepKeeps(y, p, now, env, Srv.ResetBy(y.server, now));
      case PtyOutput(count, screen) => PtyOutputKeeps(y, count, screen, now);
      case ServerTick(echo) => FinishStepKeeps(y, now, echo);
      case ServerShutdown => ShutdownKeeps(y, now);
      case Stdin(buf) => StdinKeeps(y, buf, now);
      case Winch(cols, rows) => WinchKeeps(y, cols, rows, now);
      case ClientTick(incomplete) => TickKeeps(y, incomplete, now);
    }
  }

  lemma {:induction false} RunKeeps(g: Config, steps: seq<Step>)
    requires ValidConfig(g) && Run(g, steps).Some?
    ensures ScreenInv(Run(g, steps).value)
    decreases |steps|
  {
    hide ScreenInv, Enabled, Next, ValidSys;
    if steps == [] {
      StartsInv(g);
    } else {
      RunKeeps(g, steps[..|steps| - 1]);
      StepKeeps(Run(g, steps[..|steps| - 1]).value, steps[|steps| - 1]);
    }
  }

  lemma StartsInv(g: Config)
    requires ValidConfig(g)
    ensures ScreenInv(Init(g))
  {
  }
}

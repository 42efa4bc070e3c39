/** Time bounds: when lost input is processed, when the screen is sent again, and how often a keepalive goes out. */
module Timeliness {
  import opened Base
  import opened TerminalGrid
  import opened Protocol
  import opened Network
  import opened ClientWire
  import opened InputChannel
  import opened InputRuns
  import opened ScreenRuns
  import opened Delivery
  import opened Healing
  import opened FramePacing
  import opened Retransmission
  import opened KeepaliveBackoff
  import EscapeFilter
  import LocalEcho
  import MirroredFrame
  import Srv = ServerSession
  import Cli = ClientSession

  // ----- catching up in time -----

  /** Every transmission made from time `from` on, as recorded in `w`, reaches the server in these steps. */
  ghost predicate Arrive(w: Sys, from: Time, steps: seq<Step>) {
    forall n, t | n in w.trace.sendTimes && t in w.trace.sendTimes[n] && t >= from :: Reaches(steps, n)
  }

  /** The client's numbering never goes back. */
  lemma StepNumbersOn(y: Sys, step: Step)
    requires ValidSys(y) && Enabled(y, step)
    ensures Next(y, step).client.seqNum >= y.client.seqNum
  {
    hide Srv.Feed, Srv.Finish, Srv.FedOk, Fits, Cli.Feed, Cli.FeedStdin, Cli.OnWinch, Cli.Tick, SendTimesAfter,
         Cli.TickKeepalive, Cli.TickArq;
    var c, now := y.client, step.now;
    match step.event {
      case ClientReceives(p) => FeedTimes(c, p, now);
      case Stdin(buf) => StdinTimes(c, buf, now);
      case Winch(cols, rows) => WinchTimes(c, cols, rows, now);
      case ClientTick(incomplete) =>
        KeepaliveTimes(c, now);
        TickParts(c, Cli.TickKeepalive(c, now).client, incomplete, now);
      case ServerReceives(p, env) => FedFits(y, p, now, env);
      case HandshakeArrives(p, env) => FedFits(y, p, now, env);
      case ServerTick(echo) => Srv.FinishValid(y.server, [], [], now, echo);
      case _ =>
    }
  }

  lemma {:induction false} RunNumbersOn(y: Sys, steps: seq<Step>)
    requires ValidSys(y) && RunFrom(y, steps).Some?
    ensures RunFrom(y, steps).value.client.seqNum >= y.client.seqNum
    decreases |steps|
  {
    hide Enabled, Next, ValidSys;
    if steps != [] {
      RunNumbersOn(y, steps[..|steps| - 1]);
      StepNumbersOn(RunFrom(y, steps[..|steps| - 1]).value, steps[|steps| - 1]);
    }
  }

  /** A payload still unprocessed at `w` waits at the client, so it was sent again lately. */
  lemma SentLately(g: Config, steps: seq<Step>, d: nat, n: nat)
    requires ValidConfig(g) && Run(g, steps).Some? && WindowKept(Init(g), steps)
    requires var w := Run(g, steps).value;
             w.clock - w.trace.lastTick <= d && 1 <= w.server.expected <= n <= w.client.seqNum
    ensures var w := Run(g, steps).value;
            n in w.trace.sendTimes
            && exists t :: t in w.trace.sendTimes[n] && t > w.clock - (ARQ_LIMIT + Cli.ARQ_INTERVAL + d)
  {
    hide Run, WindowKept;
    NothingForgottenEarly(g, steps);
    ExactlyOnceInOrder(g, steps);
    var w := Run(g, steps).value;
    assert n in w.client.unacked;
    RetransmittedInTime(g, steps, d, n);
    var times := w.trace.sendTimes[n];
    assert times[|times| - 1] in times;
  }

  /**
   * Catching up in time: let 1100 + d ms go by from a state y, the last tick at most d ms old then, and
   * let every transmission made since y reach the server by a later state z, in any order. Without a
   * session reset in between, everything the client had numbered at y is processed at z.
   */
  lemma CatchesUpInTime(g: Config, steps: seq<Step>, a: seq<Step>, b: seq<Step>, d: nat)
    requires ValidConfig(g) && Run(g, steps).Some? && WindowKept(Init(g), steps)
    requires RunFrom(Run(g, steps).value, a).Some? && RunFrom(RunFrom(Run(g, steps).value, a).value, b).Some?
    requires NoResets(Run(g, steps).value, a) && NoResets(RunFrom(Run(g, steps).value, a).value, b)
    requires var y, w := Run(g, steps).value, RunFrom(Run(g, steps).value, a).value;
             && w.clock >= y.clock + ARQ_LIMIT + Cli.ARQ_INTERVAL + d && w.clock - w.trace.lastTick <= d
             && Arrive(w, y.clock, a + b)
    ensures var y, z := Run(g, steps).value, RunFrom(RunFrom(Run(g, steps).value, a).value, b).value;
            z.server.expected > y.client.seqNum
  {
    hide Run, RunFrom, WindowKept, NoResets, InputInv, Progress, PresentStretch, ValidSys;
    var y, w, e := Run(g, steps).value, RunFrom(Run(g, steps).value, a).value, FirstStretch(g);
    var z, n := RunFrom(w, b).value, RunFrom(w, b).value.server.expected;
    RunIn(g, steps);
    NoResetsKeepWindow(y, a);
    KeptRunIn(y, a, e);
    RunNumbersOn(y, a);
    RunProgress(w, b, e);
    RunFromJoin(y, a, b);
    NoResetsJoin(y, a, b);
    RunProgress(y, a + b, e);
    NoResetsKeepWindow(w, b);
    KeptRunIn(w, b, e);
    NotBehind(w, z, b);
    if n <= y.client.seqNum {
      InitValid(g);
      RunsOn(g, steps, a);
      NumbersInRange(w, e);
      NumbersInRange(y, e);
      SentLately(g, steps + a, d, n);
      assert Reaches(a + b, n);
      ReachedIsKept(y, z, e, a + b, n);
    }
  }

  lemma RunsOn(g: Config, steps: seq<Step>, a: seq<Step>)
    requires ValidConfig(g) && Run(g, steps).Some? && WindowKept(Init(g), steps) && ValidSys(Init(g))
    requires RunFrom(Run(g, steps).value, a).Some? && NoResets(Run(g, steps).value, a)
    ensures Run(g, steps + a) == RunFrom(Run(g, steps).value, a) && WindowKept(Init(g), steps + a)
  {
    hide RunFrom, WindowKept, NoResets, ValidSys;
    RunJoin(g, steps, a);
    NoResetsKeepWindow(Run(g, steps).value, a);
    WindowKeptJoin(Init(g), steps, a);
  }

  lemma NotBehind(y: Sys, z: Sys, steps: seq<Step>)
    requires Progress(y.server, z.server, steps)
    ensures y.server.expected <= z.server.expected
  {
  }

  lemma NumbersInRange(y: Sys, e: Stretch)
    requires InputInv(y, e)
    ensures 1 <= y.server.expected && y.client.seqNum < TRANSIENT_BIT
  {
    hide BufferOk, PtyOps, FromLog, AllSent, AllFromClient;
    assert CoreOf(y.client).seqNum == y.client.seqNum;
  }

  /** What reached the server is processed or buffered, and the expected number is neither. */
  lemma ReachedIsKept(y: Sys, z: Sys, e: Stretch, steps: seq<Step>, n: nat)
    requires Progress(y.server, z.server, steps) && InputInv(z, e) && Reaches(steps, n) && n < TRANSIENT_BIT
    ensures n != z.server.expected
  {
    hide PtyOps, FromLog, ClientIn, Delivered;
    var k :| 0 <= k < |steps| && steps[k].event.ServerReceives? && steps[k].event.clientPacket.seqNum == n;
    assert ReceivesReliable(steps[k]);
    assert Kept(z.server, n);
  }

  // ----- the screen in time -----

  /** Any server step that syncs puts the screen on the wire, and what was put there stays. */
  lemma ServerStepSends(y: Sys, f: Srv.Fed, now: Time, reset: bool, from: nat, screen: Grid)
    requires ScreenInv(y) && Srv.FedOk(f) && FedOn(y.server, f) && FedOwes(y.server, f) && PacedJob(y.server, f, now)
    requires from <= y.server.seqNum && y.server.screen == screen
    ensures var z := AfterServer(y, f, now, reset);
            && (ScreenSent(y, from, screen) ==> ScreenSent(z, from, screen))
            && (ScreenSent(z, from, screen) || z.server.lastSync == y.server.lastSync)
  {
    hide ScreenInv, ScreenSent, Owes, FedOn, FedOwes, Srv.FedOk;
    if f.job.Some? || ScreenSent(y, from, screen) {
      ServerStepDue(y, f, now, reset, from, screen);
    }
  }

  lemma FeedSends(y: Sys, p: ClientPacket, now: Time, env: Srv.Env, reset: bool, from: nat, screen: Grid)
    requires ValidSys(y) && ScreenInv(y) && Fits(env.resized) && (p.sessionId == 0 || env.resized == screen)
    requires from <= y.server.seqNum && y.server.screen == screen && AtWindow(y.server)
    ensures Srv.FedOk(Srv.Feed(y.server, p, now, env))
    ensures var z := AfterServer(y, Srv.Feed(y.server, p, now, env), now, reset);
            && (ScreenSent(y, from, screen) ==> ScreenSent(z, from, screen))
            && (ScreenSent(z, from, screen) || z.server.lastSync == y.server.lastSync)
  {
    hide ScreenInv, Srv.Feed, ScreenSent, Owes, FedOn, FedOwes, PacedJob, AfterServer, Srv.FedOk, Srv.IsTransient;
    Srv.FeedValid(y.server, p, now, env);
    FeedOwes(y.server, p, now, env);
    FeedPaced(y.server, p, now, env);
    ServerStepSends(y, Srv.Feed(y.server, p, now, env), now, reset, from, screen);
  }

  lemma StepSends(y: Sys, step: Step, from: nat, screen: Grid)
    requires ValidSys(y) && Enabled(y, step) && ScreenInv(y) && StillStep(step, screen)
    requires from <= y.server.seqNum && y.server.screen == screen && AtWindow(y.server)
    ensures var z := Next(y, step);
            && (ScreenSent(y, from, screen) ==> ScreenSent(z, from, screen))
            && (ScreenSent(z, from, screen) || z.server.lastSync == y.server.lastSync)
  {
    hide ScreenInv, Srv.Feed, Srv.Finish, Fits, Cli.Feed, Cli.FeedStdin, Cli.OnWinch, Cli.Tick, ScreenSent,
         AfterServer, Srv.PrepareShutdown, Srv.ResetBy, FedOn, FedOwes, PacedJob, Srv.FedOk, Owes;
    var s, now := y.server, step.now;
    match step.event {
      case ServerReceives(p, env) => FeedSends(y, p, now, env, p.sessionId == 0 && Srv.ResetBy(s, now), from, screen);
      case HandshakeArrives(p, env) => FeedSends(y, p, now, env, Srv.ResetBy(s, now), from, screen);
      case ServerTick(echo) =>
        FinishOwes(s, s, [], [], now, echo);
        FinishPaced(s, s, [], [], now, echo);
        Srv.FinishValid(s, [], [], now, echo);
        ServerStepSends(y, Srv.Finish(s, [], [], now, echo), now, false, from, screen);
      case ServerShutdown =>
        ShutdownOwes(s);
        ShutdownPaced(s, now);
        ServerStepSends(y, Srv.PrepareShutdown(s), now, false, from, screen);
      case PtyOutput(_, _) =>
      case ClientReceives(_) => ClientStepSends(y, Next(y, step), from, screen);
      case Stdin(_) => ClientStepSends(y, Next(y, step), from, screen);
      case Winch(_, _) => ClientStepSends(y, Next(y, step), from, screen);
      case ClientTick(_) => ClientStepSends(y, Next(y, step), from, screen);
    }
  }

  lemma ClientStepSends(y: Sys, z: Sys, from: nat, screen: Grid)
    requires z.server == y.server && z.toClient == y.toClient && z.trace.recorded == y.trace.recorded
    ensures ScreenSent(y, from, screen) ==> ScreenSent(z, from, screen)
  {
    if ScreenSent(y, from, screen) {
      SentStays(y, z, from, screen);
    }
  }

  /** The screen was sent since the round began, or no sync has happened since. */
  ghost predicate SentOrQuiet(y: Sys, from: nat, screen: Grid, since: Time) {
    ScreenSent(y, from, screen) || y.server.lastSync <= since
  }

  /** A round by the clock: a new packet in order, the screen unchanged, and a server tick 150 ms later. */
  ghost predicate TimedRound(y: Sys, round: seq<Step>)
    requires ValidSys(y)
  {
    && |round| >= 2 && RunFrom(y, round).Some? && Still(round, y.server.screen)
    && round[0].event.ServerReceives? && Beats(y.server, round[0].event.clientPacket)
    && round[|round| - 1].event.ServerTick? && round[|round| - 1].now >= round[0].now + Srv.FLOOD_INTERVAL
  }

  lemma {:induction false} SentOrQuietSoFar(y: Sys, steps: seq<Step>)
    requires ValidSys(y) && ScreenInv(y) && AtWindow(y.server) && Told(y.server) && y.server.lastSync <= y.clock
    requires |steps| >= 1 && RunFrom(y, steps).Some? && Still(steps, y.server.screen)
    requires steps[0].event.ServerReceives? && Beats(y.server, steps[0].event.clientPacket)
    ensures SentOrQuiet(RunFrom(y, steps).value, y.server.seqNum, y.server.screen, steps[0].now)
    decreases |steps|
  {
    hide ScreenInv, Next, ValidSys, Due, StillStep, Beats, ScreenSent, Told, AtWindow;
    var before, last := steps[..|steps| - 1], steps[|steps| - 1];
    assert last in steps;
    if |steps| == 1 {
      OneStep(y, steps);
      StepSends(y, last, y.server.seqNum, y.server.screen);
    } else {
      SentOrQuietSoFar(y, before);
      RoundDue(y, before);
      DueUnfold(RunFrom(y, before).value, y.server.seqNum, y.server.screen);
      StepSends(RunFrom(y, before).value, last, y.server.seqNum, y.server.screen);
    }
  }

  lemma LateTick(s: Srv.Server, since: Time, now: Time)
    requires s.lastSync <= since && now >= since + Srv.FLOOD_INTERVAL
    ensures !Srv.Throttled(s, now)
  {
  }

  lemma TimedRoundSends(y: Sys, round: seq<Step>)
    requires ValidSys(y) && ScreenInv(y) && AtWindow(y.server) && Told(y.server) && y.server.lastSync <= y.clock
    requires TimedRound(y, round)
    ensures ScreenSent(RunFrom(y, round).value, y.server.seqNum, y.server.screen)
  {
    hide ScreenInv, Enabled, Next, ValidSys, Due, StillStep, Beats, ScreenSent, Srv.Throttled, Told, AtWindow;
    var before, last := round[..|round| - 1], round[|round| - 1];
    assert last in round;
    var z := RunFrom(y, before).value;
    SentOrQuietSoFar(y, before);
    RoundDue(y, before);
    DueUnfold(z, y.server.seqNum, y.server.screen);
    StepDue(z, last, y.server.seqNum, y.server.screen);
    StepSends(z, last, y.server.seqNum, y.server.screen);
    if !ScreenSent(z, y.server.seqNum, y.server.screen) {
      LateTick(z.server, round[0].now, last.now);
    }
  }

  /**
   * The screen in time: from every state any run reaches, once a new client packet has arrived in order,
   * the first server tick at least 150 ms later finds the current screen on the wire in a newly numbered
   * frame, however much was throttled on the way. Whenever the client takes that frame before a newer
   * one, it ends with that screen.
   */
  lemma HealsInTime(g: Config, steps: seq<Step>, round: seq<Step>, later: seq<Step>, now: Time)
      returns (p: ServerPacket)
    requires ValidConfig(g) && Run(g, steps).Some? && TimedRound(Run(g, steps).value, round)
    requires Run(g, steps + round + later).Some?
    ensures var s, y := Run(g, steps).value.server, Run(g, steps + round + later).value;
            && CarriesScreen(p, y, s.seqNum, s.screen)
            && (Takes(y.client, p) ==> EndsWith(y.client, p, now, s.screen))
  {
    hide Run, RunFrom, TimedRound, ValidSys, CarriesScreen, Takes, EndsWith, ScreenInv, AtWindow, Told;
    var y := Run(g, steps).value;
    RunKeeps(g, steps);
    RunTold(g, steps);
    RunPaced(g, steps);
    TimedRoundSends(y, round);
    TimedRoundRuns(y, round);
    p :| CarriesScreen(p, RunFrom(y, round).value, y.server.seqNum, y.server.screen);
    RunJoin(g, steps, round);
    CarriedLater(g, steps + round, later, p, y.server.seqNum, y.server.screen);
    if Takes(Run(g, steps + round + later).value.client, p) {
      CarriedScreenIsShown(g, steps + round + later, p, y.server.seqNum, y.server.screen, now);
    }
    CarriedIsFrame(p, Run(g, steps + round + later).value, y.server.seqNum, y.server.screen);
  }

  lemma TimedRoundRuns(y: Sys, round: seq<Step>)
    requires ValidSys(y) && TimedRound(y, round)
    ensures RunFrom(y, round).Some?
  {
  }

  // ----- keepalives in time -----

  /** A keepalive was numbered, and first put on the wire at this time. */
  ghost predicate KeepaliveSentAt(t: Trace, at: Time) {
    exists k :: 1 <= k <= |t.log| && t.log[k - 1].KeepAlive? && k in t.sendTimes && t.sendTimes[k] != []
                && t.sendTimes[k][0] == at
  }

  /** The last tick came less than five seconds after the last keepalive, which went on the wire then. */
  ghost predicate KeepaliveInv(y: Sys, since: Time) {
    && y.trace.lastTick - y.client.lastKeepalive < 5000 && y.client.lastKeepalive <= y.clock
    && y.trace.lastTick <= y.clock
    && (y.client.lastKeepalive == since || KeepaliveSentAt(y.trace, y.client.lastKeepalive))
  }

  /** What a client step does to the log and the transmission times. */
  predicate Extends(t: Trace, u: Trace, c: Cli.Client, c': Cli.Client, resent: set<nat>, now: Time) {
    u.log == t.log + Numbered(c, c') && u.sendTimes == SendTimesAfter(t.sendTimes, c, c', resent, now)
  }

  lemma SentAtStays(t: Trace, u: Trace, c: Cli.Client, c': Cli.Client, resent: set<nat>, now: Time, at: Time)
    requires Extends(t, u, c, c', resent, now) && c.seqNum == |t.log| && KeepaliveSentAt(t, at)
    ensures KeepaliveSentAt(u, at)
  {
    var k :| 1 <= k <= |t.log| && t.log[k - 1].KeepAlive? && k in t.sendTimes && t.sendTimes[k] != []
        && t.sendTimes[k][0] == at;
    assert u.sendTimes[k][0] == at && u.log[k - 1] == t.log[k - 1];
  }

  /** A tick that sends a keepalive numbers it and records the time. */
  lemma KeepaliveRecorded(t: Trace, u: Trace, c: Cli.Client, c': Cli.Client, resent: set<nat>, now: Time)
    requires Extends(t, u, c, c', resent, now) && c.seqNum == |t.log|
    requires c'.seqNum == c.seqNum + 1 && Numbered(c, c') == [KeepAlive]
    ensures KeepaliveSentAt(u, now)
  {
    var k := c'.seqNum;
    assert u.log[k - 1].KeepAlive? && u.sendTimes[k] == [now];
  }

  /** A client step other than a tick leaves the keepalive timer alone. */
  lemma TimerKept(c: Cli.Client, p: ServerPacket, buf: seq<byte>, cols: u16, rows: u16, now: Time)
    requires Cli.ValidClient(c)
    ensures Cli.Feed(c, p, now).client.lastKeepalive == c.lastKeepalive
    ensures Cli.FeedStdin(c, buf, now).client.lastKeepalive == c.lastKeepalive
    ensures Cli.OnWinch(c, cols, rows, now).client.lastKeepalive == c.lastKeepalive
  {
    hide Cli.Feed, Cli.LossAfter, LocalEcho.Reconcile, LocalEcho.Predict, LocalEcho.Abort, Cli.RttAfter,
         MirroredFrame.WithBanner, EscapeFilter.Filter, Cli.CommandActions;
    Cli.FeedChangesLittle(c, p, now);
  }

  lemma KeepaliveKept(y: Sys, z: Sys, resent: set<nat>, now: Time, since: Time)
    requires KeepaliveInv(y, since) && y.client.seqNum == |y.trace.log| && now >= y.clock
    requires Extends(y.trace, z.trace, y.client, z.client, resent, now)
             || (z.trace.log == y.trace.log && z.trace.sendTimes == y.trace.sendTimes)
    requires z.client.lastKeepalive == y.client.lastKeepalive && z.trace.lastTick == y.trace.lastTick && z.clock == now
    ensures KeepaliveInv(z, since)
  {
    hide Extends, KeepaliveSentAt;
    if y.client.lastKeepalive != since {
      if Extends(y.trace, z.trace, y.client, z.client, resent, now) {
        SentAtStays(y.trace, z.trace, y.client, z.client, resent, now, y.client.lastKeepalive);
      } else {
        SameTimes(y.trace, z.trace, y.client.lastKeepalive);
      }
    }
  }

  lemma SameTimes(t: Trace, u: Trace, at: Time)
    requires u.log == t.log && u.sendTimes == t.sendTimes && KeepaliveSentAt(t, at)
    ensures KeepaliveSentAt(u, at)
  {
  }

  lemma TickTimer(c: Cli.Client, incomplete: seq<Cli.Report>, now: Time)
    ensures var t, k := Cli.TickKeepalive(c, now).client, Cli.Tick(c, incomplete, now);
            && k.client.lastKeepalive == t.lastKeepalive
            && (if Since(now, c.lastKeepalive) >= c.keepaliveInterval then t.lastKeepalive == now else t == c)
            && (t != c ==> SendsReliable(c, t, SentBy(k.before), KeepAlive, now))
  {
    hide Cli.TickArq, Cli.Tick;
    Cli.TickChangesLittle(c, incomplete, now);
    ArqKeepsTimer(Cli.TickKeepalive(c, now).client, now);
    TickWire(c, incomplete, now);
    KeepaliveTimes(c, now);
  }

  lemma ArqKeepsTimer(c: Cli.Client, now: Time)
    ensures Cli.TickArq(c, now).lastKeepalive == c.lastKeepalive
  {
    hide Cli.Overdue, Cli.MarkSent;
  }

  lemma TickKeepaliveInv(y: Sys, incomplete: seq<Cli.Report>, now: Time, since: Time)
    requires ValidSys(y) && KeepaliveInv(y, since) && y.client.seqNum == |y.trace.log| && now >= y.clock
    requires y.client.keepaliveInterval <= 5000
    ensures KeepaliveInv(AfterTick(y, incomplete, now), since)
  {
    hide Cli.Tick, Cli.TickKeepalive, Cli.TickArq, KeepaliveSentAt, Numbered, SendTimesAfter, SendsReliable;
    var c, t, k := y.client, Cli.TickKeepalive(y.client, now).client, Cli.Tick(y.client, incomplete, now);
    var z := AfterTick(y, incomplete, now);
    TickTimer(c, incomplete, now);
    TickWire(c, incomplete, now);
    TickNumbers(c, t, k.client, now);
    assert Extends(y.trace, z.trace, c, k.client, k.resent, now);
    if t != c {
      NumberedReliable(c, t, SentBy(k.before), KeepAlive, now);
      ReliableSession(c, t, SentBy(k.before), KeepAlive, now);
      KeepaliveRecorded(y.trace, z.trace, c, k.client, k.resent, now);
    } else if c.lastKeepalive != since {
      SentAtStays(y.trace, z.trace, c, k.client, k.resent, now, c.lastKeepalive);
    }
  }

  lemma StepKeepalive(y: Sys, step: Step, since: Time)
    requires ValidSys(y) && Enabled(y, step) && KeepaliveInv(y, since) && y.client.seqNum == |y.trace.log|
    requires y.client.keepaliveInterval <= 5000
    ensures KeepaliveInv(Next(y, step), since)
  {
    hide Srv.Feed, Srv.Finish, Srv.FedOk, Fits, Cli.Feed, Cli.FeedStdin, Cli.OnWinch, Cli.Tick, KeepaliveInv,
         Numbered, SendTimesAfter, AfterTick;
    var c, now := y.client, step.now;
    match step.event {
      case ClientReceives(p) =>
        TimerKept(c, p, [], 0, 0, now);
        KeepaliveKept(y, Next(y, step), {}, now, since);
      case Stdin(buf) =>
        TimerKept(c, ServerPacket(0, 0, KeepAliveReply), buf, 0, 0, now);
        KeepaliveKept(y, Next(y, step), {}, now, since);
      case Winch(cols, rows) =>
        TimerKept(c, ServerPacket(0, 0, KeepAliveReply), [], cols, rows, now);
        KeepaliveKept(y, Next(y, step), {}, now, since);
      case ClientTick(incomplete) => TickKeepaliveInv(y, incomplete, now, since);
      case ServerReceives(p, env) =>
        FedFits(y, p, now, env);
        KeepaliveKept(y, Next(y, step), {}, now, since);
      case HandshakeArrives(p, env) =>
        FedFits(y, p, now, env);
        KeepaliveKept(y, Next(y, step), {}, now, since);
      case ServerTick(echo) =>
        Srv.FinishValid(y.server, [], [], now, echo);
        KeepaliveKept(y, Next(y, step), {}, now, since);
      case _ => KeepaliveKept(y, Next(y, step), {}, now, since);
    }
  }

  lemma LogIsNumbered(y: Sys, e: Stretch)
    requires InputInv(y, e)
    ensures y.client.seqNum == |y.trace.log|
  {
    assert CoreOf(y.client).seqNum == y.client.seqNum;
  }

  lemma {:induction false} RunKeepalive(g: Config, steps: seq<Step>, d: nat)
    requires ValidConfig(g) && Run(g, steps).Some? && Prompt(g, steps, d) && d < 10000
    ensures KeepaliveInv(Run(g, steps).value, g.now)
    decreases |steps|
  {
    hide Enabled, Next, ValidSys, PromptStep;
    if steps != [] {
      hide KeepaliveInv, InputInv, PresentStretch;
      var before := steps[..|steps| - 1];
      RunKeepalive(g, before, d);
      LadderStopsAtFiveSeconds(g, before, d);
      RunIn(g, before);
      LogIsNumbered(Run(g, before).value, PresentStretch(g, before));
      StepKeepalive(Run(g, before).value, steps[|steps| - 1], g.now);
    }
  }

  /**
   * Keepalives in time, outage or not: on every run with client ticks at most d < 10000 ms apart, the last
   * one at most d ms ago, a keepalive was numbered and put on the wire less than 5000 + d ms ago, unless
   * the run itself is younger.
   */
  lemma KeepalivesKeepComing(g: Config, steps: seq<Step>, d: nat)
    requires ValidConfig(g) && Run(g, steps).Some? && Prompt(g, steps, d) && d < 10000
    requires var y := Run(g, steps).value; y.clock - y.trace.lastTick <= d
    ensures var y := Run(g, steps).value;
            y.clock - g.now < 5000 + d || exists at :: KeepaliveSentAt(y.trace, at) && y.clock - at < 5000 + d
  {
    hide Run, Prompt, KeepaliveSentAt;
    RunKeepalive(g, steps, d);
  }
}

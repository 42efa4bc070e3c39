/**
 * One-round healing: from any state any run reaches, resets included, one new in-order packet from the
 * client makes the server send the current screen again, whatever was lost before.
 */
module Healing {
  import opened Base
  import opened TerminalGrid
  import opened Protocol
  import opened Network
  import opened ScreenChannel
  import opened ScreenRuns
  import opened InputChannel
  import opened LocalEcho
  import opened MirrorRuns
  import Srv = ServerSession
  import Cli = ClientSession

  // ----- what one entry point does -----

  /** A frame is owed: the client was not told of an acknowledgement, or a changed screen is not recorded. */
  predicate Owes(s: Srv.Server) {
    s.ackSeq > s.lastSentAck || (s.dirty && !Srv.LastRecordedIs(s.history, s.screen))
  }

  /** The acknowledgement is the window's end. */
  predicate AtWindow(s: Srv.Server) {
    s.ackSeq == s.expected - 1
  }

  /** A sync emits a frame, with the current screen, exactly when one is owed and it is not throttled. */
  lemma SyncEmitsIff(s: Srv.Server, now: Time, echo: bool)
    ensures var r := Srv.CheckSync(s, now, echo);
            && (r.job.Some? <==> Owes(s) && !Srv.Throttled(s, now))
            && (r.job.Some? ==> r.job.value.current == s.screen && r.job.value.seqNum == r.server.seqNum == s.seqNum + 1
                                && r.server.lastSentAck == r.server.ackSeq)
            && (r.job.None? ==> r.server.seqNum == s.seqNum && r.server.lastSentAck == s.lastSentAck
                                && (Owes(s) ==> Owes(r.server)))
  {
    hide Srv.PruneHistory, Srv.ReferenceFor, Record;
  }

  /** The numbering goes on, and the last acknowledgement sent changes with a frame job only. */
  predicate FedOn(s: Srv.Server, f: Srv.Fed) {
    && f.server.seqNum >= s.seqNum && AtWindow(f.server)
    && (f.job.Some? ==> s.seqNum < f.job.value.seqNum <= f.server.seqNum && f.server.lastSentAck == f.server.ackSeq)
    && (f.job.None? ==> f.server.lastSentAck == s.lastSentAck)
  }

  /** With the screen unchanged, a frame job carries it, and what is owed is sent or still owed. */
  predicate FedOwes(s: Srv.Server, f: Srv.Fed) {
    && f.server.screen == s.screen && (f.job.Some? ==> f.job.value.current == s.screen)
    && (Owes(s) ==> f.job.Some? || Owes(f.server))
  }

  lemma FinishOwes(s0: Srv.Server, s: Srv.Server, replies: seq<Srv.ServerAction>, items: seq<Srv.Item>, now: Time,
                   echo: bool)
    requires s.seqNum >= s0.seqNum && AtWindow(s) && s.lastSentAck == s0.lastSentAck
    ensures var f := Srv.Finish(s, replies, items, now, echo);
            && FedOn(s0, f) && f.server.ackSeq == s.ackSeq
            && (s.screen == s0.screen && (Owes(s0) ==> Owes(s)) ==> FedOwes(s0, f))
            && (Owes(s) ==> f.job.Some? || Owes(f.server))
  {
    hide Srv.CheckSync, Owes;
    SyncEmitsIff(s, now, echo);
    SyncChangesLittle(s, now, echo);
  }

  lemma IdleOwes(s: Srv.Server, t: Srv.Server)
    requires AtWindow(t) && t.seqNum == s.seqNum && t.lastSentAck == s.lastSentAck && t.screen == s.screen
    requires t.ackSeq == s.ackSeq && t.dirty == s.dirty && t.history == s.history
    ensures FedOn(s, Srv.Fed(t, [], [], None)) && FedOwes(s, Srv.Fed(t, [], [], None))
  {
  }

  /** The packet that is next in order, in this session. */
  predicate Beats(s: Srv.Server, p: ClientPacket) {
    p.sessionId == s.sessionId != 0 && !Srv.IsTransient(p) && p.seqNum == s.expected
  }

  lemma InOrderOwes(s: Srv.Server, p: ClientPacket, now: Time, env: Srv.Env)
    requires AtWindow(s) && p.seqNum == s.expected
    ensures var f := Srv.FeedInOrder(s, p, now, env);
            && FedOn(s, f) && f.server.ackSeq > s.ackSeq && (env.resized == s.screen ==> FedOwes(s, f))
            && (Told(s) ==> f.job.Some? || Owes(f.server))
  {
    hide Srv.Finish, Srv.ProcessItems, Srv.Contiguous, Srv.Remaining;
    var s1 := Srv.Advance(s, p);
    var done := Srv.ProcessItems(s1, Srv.Released(s, p), env.resized);
    Srv.ProcessChangesLittle(s1, Srv.Released(s, p), env.resized);
    ItemsKeepDirty(s1, Srv.Released(s, p), env.resized);
    FinishOwes(s, done.server, done.replies, Srv.Released(s, p), now, env.echo);
  }

  lemma {:induction false} ItemsKeepDirty(s: Srv.Server, items: seq<Srv.Item>, resized: Grid)
    ensures s.dirty ==> Srv.ProcessItems(s, items, resized).server.dirty
    decreases |items|
  {
    if items != [] {
      ItemsKeepDirty(s, items[..|items| - 1], resized);
    }
  }

  lemma HandshakeOwes(s: Srv.Server, p: ClientPacket, now: Time, env: Srv.Env)
    requires AtWindow(s)
    ensures FedOn(s, Srv.FeedHandshake(s, p, now, env)) && FedOwes(s, Srv.FeedHandshake(s, p, now, env))
  {
    hide Srv.Finish, FedOn, FedOwes;
    var r := Srv.Reset(s, p, now);
    IdleOwes(s, s);
    FinishOwes(s, r, [Srv.SendPacket(ServerPacket(r.seqNum, p.seqNum, HandshakeAck(s.sessionId)))], [], now, env.echo);
  }

  lemma TransientOwes(s: Srv.Server, p: ClientPacket, now: Time, env: Srv.Env)
    requires AtWindow(s)
    ensures FedOn(s, Srv.FeedTransient(s, p, now, env)) && FedOwes(s, Srv.FeedTransient(s, p, now, env))
  {
    hide Srv.Finish, FedOn, FedOwes;
    FinishOwes(s, if p.ack > s.clientAck then s.(clientAck := p.ack) else s,
               match p.payload
               case FragmentNack(frameSeq, mask) => [Srv.ResendFragments(frameSeq, mask)]
               case _ => [], [], now, env.echo);
  }

  /** Any packet, handshakes included; the screen part needs a resize to report the same screen. */
  lemma FeedOwes(s: Srv.Server, p: ClientPacket, now: Time, env: Srv.Env)
    requires AtWindow(s)
    ensures var f := Srv.Feed(s, p, now, env);
            && FedOn(s, f) && (p.sessionId == 0 || env.resized == s.screen ==> FedOwes(s, f))
            && (p.sessionId != 0 ==> f.server.ackSeq >= s.ackSeq)
            && (Beats(s, p) && Told(s) ==> f.job.Some? || Owes(f.server))
  {
    hide Srv.FeedHandshake, Srv.FeedTransient, Srv.FeedInOrder, FedOn, FedOwes, Owes;
    var s1 := s.(lastRecv := now);
    HandshakeOwes(s, p, now, env);
    TransientOwes(s1, p, now, env);
    IdleOwes(s, s);
    IdleOwes(s, s1);
    IdleOwes(s, s1.(outOfOrder := s.outOfOrder[p.seqNum := p.payload]));
    if p.seqNum == s.expected {
      InOrderOwes(s1, p, now, env);
    }
    SameOwes(s, s1, Srv.Feed(s, p, now, env));
    TransientAck(s1, p, now, env);
  }

  lemma SameOwes(s: Srv.Server, s1: Srv.Server, f: Srv.Fed)
    requires s1 == s.(lastRecv := s1.lastRecv)
    ensures FedOn(s1, f) ==> FedOn(s, f)
    ensures FedOwes(s1, f) ==> FedOwes(s, f)
  {
  }

  lemma TransientAck(s: Srv.Server, p: ClientPacket, now: Time, env: Srv.Env)
    ensures Srv.FeedTransient(s, p, now, env).server.ackSeq == s.ackSeq
  {
    hide Srv.CheckSync;
    SyncChangesLittle(if p.ack > s.clientAck then s.(clientAck := p.ack) else s, now, env.echo);
  }

  lemma ShutdownOwes(s: Srv.Server)
    requires AtWindow(s)
    ensures FedOn(s, Srv.PrepareShutdown(s)) && FedOwes(s, Srv.PrepareShutdown(s))
  {
  }

  // ----- the acknowledgement sent last -----

  /** It is not ahead of the window, or a reset just forgot everything and a first frame is still owed. */
  predicate Told(s: Srv.Server) {
    s.lastSentAck <= s.ackSeq || (s.dirty && s.history == [])
  }

  lemma FinishTold(s: Srv.Server, replies: seq<Srv.ServerAction>, items: seq<Srv.Item>, now: Time, echo: bool)
    requires Told(s)
    ensures Told(Srv.Finish(s, replies, items, now, echo).server)
  {
    hide Srv.PruneHistory, Srv.ReferenceFor, Record;
  }

  lemma InOrderTold(s: Srv.Server, p: ClientPacket, now: Time, env: Srv.Env)
    requires AtWindow(s) && Told(s) && p.seqNum == s.expected
    ensures Told(Srv.FeedInOrder(s, p, now, env).server)
  {
    hide Srv.Finish, Srv.ProcessItems, Srv.Contiguous, Srv.Remaining;
    var s1 := Srv.Advance(s, p);
    var done := Srv.ProcessItems(s1, Srv.Released(s, p), env.resized);
    Srv.ProcessChangesLittle(s1, Srv.Released(s, p), env.resized);
    ItemsKeepDirty(s1, Srv.Released(s, p), env.resized);
    FinishTold(done.server, done.replies, Srv.Released(s, p), now, env.echo);
  }

  lemma FeedTold(s: Srv.Server, p: ClientPacket, now: Time, env: Srv.Env)
    requires AtWindow(s) && Told(s)
    ensures Told(Srv.Feed(s, p, now, env).server)
  {
    hide Srv.FeedInOrder, Srv.Finish;
    var s1 := s.(lastRecv := now);
    if p.sessionId == 0 {
      var r := Srv.Reset(s, p, now);
      FinishTold(r, [Srv.SendPacket(ServerPacket(r.seqNum, p.seqNum, HandshakeAck(s.sessionId)))], [], now, env.echo);
    } else if Srv.IsTransient(p) {
      FinishTold(if p.ack > s.clientAck then s1.(clientAck := p.ack) else s1,
                 match p.payload
                 case FragmentNack(frameSeq, mask) => [Srv.ResendFragments(frameSeq, mask)]
                 case _ => [], [], now, env.echo);
    } else if p.seqNum == s.expected {
      InOrderTold(s1, p, now, env);
    }
  }

  // ----- along a run -----

  /** The server's terminal reports this screen. */
  predicate StillStep(s: Step, screen: Grid) {
    !s.event.PtyOutput? && (s.event.ServerReceives? ==> s.event.env.resized == screen)
  }

  predicate Still(steps: seq<Step>, screen: Grid) {
    forall s | s in steps :: StillStep(s, screen)
  }

  /** A frame packet numbered above `from` that carries this screen. */
  predicate CarriesScreen(p: ServerPacket, y: Sys, from: nat, screen: Grid) {
    && p in y.toClient && p.payload.FramePayload? && p.seqNum > from
    && p.seqNum in y.trace.recorded && y.trace.recorded[p.seqNum] == screen
  }

  ghost predicate ScreenSent(y: Sys, from: nat, screen: Grid) {
    exists p :: CarriesScreen(p, y, from, screen)
  }

  /** The screen was sent, or a frame is owed. */
  ghost predicate Due(y: Sys, from: nat, screen: Grid) {
    && y.server.screen == screen && from <= y.server.seqNum && AtWindow(y.server)
    && (ScreenSent(y, from, screen) || Owes(y.server))
  }

  lemma SentStays(y: Sys, z: Sys, from: nat, screen: Grid)
    requires ScreenSent(y, from, screen) && y.toClient <= z.toClient
    requires forall n | n in y.trace.recorded :: n in z.trace.recorded && z.trace.recorded[n] == y.trace.recorded[n]
    ensures ScreenSent(z, from, screen)
  {
    var p :| CarriesScreen(p, y, from, screen);
    assert CarriesScreen(p, z, from, screen);
  }

  lemma RecordedBelow(y: Sys)
    requires ScreenInv(y)
    ensures forall n | n in y.trace.recorded :: n <= y.server.seqNum
  {
  }

  lemma Carried(p: ServerPacket, y: Sys, from: nat, screen: Grid)
    requires CarriesScreen(p, y, from, screen)
    ensures ScreenSent(y, from, screen)
  {
  }

  lemma ServerStepDue(y: Sys, f: Srv.Fed, now: Time, reset: bool, from: nat, screen: Grid)
    requires ScreenInv(y) && Srv.FedOk(f) && FedOn(y.server, f) && FedOwes(y.server, f)
    requires from <= y.server.seqNum && y.server.screen == screen
    requires ScreenSent(y, from, screen) || f.job.Some? || Owes(f.server)
    ensures Due(AfterServer(y, f, now, reset), from, screen)
    ensures f.job.Some? || ScreenSent(y, from, screen) ==> ScreenSent(AfterServer(y, f, now, reset), from, screen)
  {
    hide ServerSide, ClientSide, AcksOk, DiffFrom, Srv.ValidServer, Srv.ValidJob, Fits, ScreenSent, ScreenInv, Owes;
    var z := AfterServer(y, f, now, reset);
    RecordedBelow(y);
    if f.job.Some? {
      var p := Srv.RunJob(f.job.value);
      assert p in JobPacket(f.job);
      assert CarriesScreen(p, z, from, screen);
      Carried(p, z, from, screen);
    } else if ScreenSent(y, from, screen) {
      SentStays(y, z, from, screen);
    }
  }

  /** A step of the client moves nothing here. */
  lemma ClientStepDue(y: Sys, z: Sys, from: nat, screen: Grid)
    requires Due(y, from, screen) && z.server == y.server && z.toClient == y.toClient
             && z.trace.recorded == y.trace.recorded
    ensures Due(z, from, screen) && (ScreenSent(y, from, screen) ==> ScreenSent(z, from, screen))
  {
    hide ScreenSent, Owes;
    if ScreenSent(y, from, screen) {
      SentStays(y, z, from, screen);
    }
  }

  lemma FeedDue(y: Sys, p: ClientPacket, now: Time, env: Srv.Env, reset: bool, from: nat, screen: Grid)
    requires ValidSys(y) && ScreenInv(y) && Fits(env.resized) && (p.sessionId == 0 || env.resized == screen)
    requires from <= y.server.seqNum && y.server.screen == screen && AtWindow(y.server)
    requires Due(y, from, screen) || (Beats(y.server, p) && Told(y.server))
    ensures Srv.FedOk(Srv.Feed(y.server, p, now, env))
    ensures Due(AfterServer(y, Srv.Feed(y.server, p, now, env), now, reset), from, screen)
  {
    hide ScreenInv, Srv.Feed, ScreenSent, Owes, FedOn, FedOwes, AfterServer, Srv.FedOk, Srv.IsTransient;
    Srv.FeedValid(y.server, p, now, env);
    FeedOwes(y.server, p, now, env);
    OwedIsSentOrOwed(y.server, Srv.Feed(y.server, p, now, env));
    ServerStepDue(y, Srv.Feed(y.server, p, now, env), now, reset, from, screen);
  }

  lemma OwedIsSentOrOwed(s: Srv.Server, f: Srv.Fed)
    requires FedOwes(s, f)
    ensures Owes(s) ==> f.job.Some? || Owes(f.server)
  {
  }

  lemma TickDue(y: Sys, now: Time, echo: bool, from: nat, screen: Grid)
    requires ValidSys(y) && ScreenInv(y) && Due(y, from, screen)
    ensures var f := Srv.Finish(y.server, [], [], now, echo);
            && Srv.FedOk(f) && Due(AfterServer(y, f, now, false), from, screen)
            && (!Srv.Throttled(y.server, now) ==> ScreenSent(AfterServer(y, f, now, false), from, screen))
  {
    hide ScreenInv, Srv.CheckSync, ScreenSent, Owes, Srv.Throttled, AfterServer, Srv.FedOk, FedOn;
    var f := Srv.Finish(y.server, [], [], now, echo);
    FinishOwes(y.server, y.server, [], [], now, echo);
    SyncEmitsIff(y.server, now, echo);
    Srv.FinishValid(y.server, [], [], now, echo);
    ServerStepDue(y, f, now, false, from, screen);
  }

  lemma ShutdownDue(y: Sys, now: Time, from: nat, screen: Grid)
    requires ValidSys(y) && ScreenInv(y) && Due(y, from, screen)
    ensures Srv.FedOk(Srv.PrepareShutdown(y.server))
    ensures Due(AfterServer(y, Srv.PrepareShutdown(y.server), now, false), from, screen)
  {
    hide ScreenInv, ScreenSent, Owes, AfterServer, FedOn;
    ShutdownOwes(y.server);
    OwedIsSentOrOwed(y.server, Srv.PrepareShutdown(y.server));
    ServerStepDue(y, Srv.PrepareShutdown(y.server), now, false, from, screen);
  }

  lemma DueUnfold(y: Sys, from: nat, screen: Grid)
    requires Due(y, from, screen)
    ensures y.server.screen == screen && from <= y.server.seqNum && AtWindow(y.server)
  {
  }

  lemma StepDue(y: Sys, step: Step, from: nat, screen: Grid)
    requires ValidSys(y) && Enabled(y, step) && ScreenInv(y) && Due(y, from, screen) && StillStep(step, screen)
    ensures Due(Next(y, step), from, screen)
    ensures step.event.ServerTick? && !Srv.Throttled(y.server, step.now) ==> ScreenSent(Next(y, step), from, screen)
  {
    hide ScreenInv, Srv.Feed, Srv.Finish, Fits, Cli.Feed, Cli.FeedStdin, Cli.OnWinch, Cli.Tick, Due, ScreenSent,
         Srv.Throttled, AfterServer, Srv.PrepareShutdown, Srv.ResetBy;
    DueUnfold(y, from, screen);
    match step.event {
      case ClientReceives(_) => ClientStepDue(y, Next(y, step), from, screen);
      case Stdin(_) => ClientStepDue(y, Next(y, step), from, screen);
      case Winch(_, _) => ClientStepDue(y, Next(y, step), from, screen);
      case ClientTick(_) => ClientStepDue(y, Next(y, step), from, screen);
      case ServerReceives(p, env) =>
        FeedDue(y, p, step.now, env, p.sessionId == 0 && Srv.ResetBy(y.server, step.now), from, screen);
      case HandshakeArrives(p, env) => FeedDue(y, p, step.now, env, Srv.ResetBy(y.server, step.now), from, screen);
      case ServerTick(echo) => TickDue(y, step.now, echo, from, screen);
      case ServerShutdown => ShutdownDue(y, step.now, from, screen);
      case PtyOutput(_, _) =>
    }
  }

  // ----- the window on every run -----

  lemma StepTold(y: Sys, step: Step)
    requires ValidSys(y) && Enabled(y, step) && AtWindow(y.server) && Told(y.server)
    ensures AtWindow(Next(y, step).server) && Told(Next(y, step).server)
  {
    hide Srv.Feed, Srv.Finish, Fits, Cli.Feed, Cli.FeedStdin, Cli.OnWinch, Cli.Tick, Srv.ResetBy;
    match step.event {
      case ServerReceives(p, env) =>
        FeedOwes(y.server, p, step.now, env);
        FeedTold(y.server, p, step.now, env);
      case HandshakeArrives(p, env) =>
        FeedOwes(y.server, p, step.now, env);
        FeedTold(y.server, p, step.now, env);
      case ServerTick(echo) =>
        FinishOwes(y.server, y.server, [], [], step.now, echo);
        FinishTold(y.server, [], [], step.now, echo);
      case _ =>
    }
  }

  /**
   * On every run the server acknowledges its window's end, and the acknowledgement it sent last is not
   * ahead of that, unless a reset just forgot everything and a first frame is owed anyway.
   */
  lemma {:induction false} RunTold(g: Config, steps: seq<Step>)
    requires ValidConfig(g) && Run(g, steps).Some?
    ensures AtWindow(Run(g, steps).value.server) && Told(Run(g, steps).value.server)
    decreases |steps|
  {
    hide Enabled, Next, ValidSys;
    if steps != [] {
      hide AtWindow, Told;
      RunTold(g, steps[..|steps| - 1]);
      StepTold(Run(g, steps[..|steps| - 1]).value, steps[|steps| - 1]);
    }
  }

  // ----- one round -----

  /** A new packet in order, then anything while the screen stays the same, then a tick that is not throttled. */
  ghost predicate Round(y: Sys, round: seq<Step>)
    requires ValidSys(y)
  {
    && |round| >= 2 && RunFrom(y, round).Some? && Still(round, y.server.screen)
    && round[0].event.ServerReceives? && Beats(y.server, round[0].event.clientPacket)
    && round[|round| - 1].event.ServerTick?
    && RunFrom(y, round[..|round| - 1]).Some?
    && !Srv.Throttled(RunFrom(y, round[..|round| - 1]).value.server, round[|round| - 1].now)
  }

  lemma BeatDue(y: Sys, beat: Step)
    requires ValidSys(y) && Enabled(y, beat) && ScreenInv(y) && AtWindow(y.server) && Told(y.server)
    requires beat.event.ServerReceives? && Beats(y.server, beat.event.clientPacket) && StillStep(beat, y.server.screen)
    ensures Due(Next(y, beat), y.server.seqNum, y.server.screen)
  {
    hide ScreenInv, Srv.Feed, Fits, Due, AfterServer, Srv.IsTransient, Srv.ResetBy;
    var p := beat.event.clientPacket;
    FeedDue(y, p, beat.now, beat.event.env, p.sessionId == 0 && Srv.ResetBy(y.server, beat.now),
            y.server.seqNum, y.server.screen);
  }

  lemma OneStep(y: Sys, steps: seq<Step>)
    requires ValidSys(y) && |steps| == 1 && RunFrom(y, steps).Some?
    ensures Enabled(y, steps[0]) && RunFrom(y, steps).value == Next(y, steps[0])
  {
    hide Enabled, Next;
    assert steps[..0] == [];
  }

  lemma {:induction false} RoundDue(y: Sys, steps: seq<Step>)
    requires ValidSys(y) && ScreenInv(y) && AtWindow(y.server) && Told(y.server)
    requires |steps| >= 1 && RunFrom(y, steps).Some? && Still(steps, y.server.screen)
    requires steps[0].event.ServerReceives? && Beats(y.server, steps[0].event.clientPacket)
    ensures var z := RunFrom(y, steps).value; Due(z, y.server.seqNum, y.server.screen) && ScreenInv(z)
    decreases |steps|
  {
    hide ScreenInv, Enabled, Next, ValidSys, Due, StillStep, Beats;
    var before, last := steps[..|steps| - 1], steps[|steps| - 1];
    assert last in steps;
    if |steps| == 1 {
      OneStep(y, steps);
      BeatDue(y, last);
      StepKeeps(y, last);
    } else {
      RoundDue(y, before);
      StepDue(RunFrom(y, before).value, last, y.server.seqNum, y.server.screen);
      StepKeeps(RunFrom(y, before).value, last);
    }
  }

  lemma RoundSends(y: Sys, round: seq<Step>)
    requires ValidSys(y) && ScreenInv(y) && AtWindow(y.server) && Told(y.server) && Round(y, round)
    ensures ScreenSent(RunFrom(y, round).value, y.server.seqNum, y.server.screen)
  {
    hide ScreenInv, Enabled, Next, ValidSys, Due, StillStep, Beats, ScreenSent, Srv.Throttled;
    var before, last := round[..|round| - 1], round[|round| - 1];
    assert last in round;
    RoundDue(y, before);
    StepDue(RunFrom(y, before).value, last, y.server.seqNum, y.server.screen);
  }

  /**
   * From every state any run reaches, one such round puts a newly numbered frame with exactly the current
   * screen on the wire, identical to the last recorded one or not.
   */
  lemma OneRoundSendsTheScreen(g: Config, steps: seq<Step>, round: seq<Step>) returns (p: ServerPacket)
    requires ValidConfig(g) && Run(g, steps).Some? && Round(Run(g, steps).value, round)
    ensures var y := Run(g, steps).value;
            CarriesScreen(p, RunFrom(y, round).value, y.server.seqNum, y.server.screen)
  {
    hide Run, RunFrom, ScreenInv, CarriesScreen, ValidSys, Round, AtWindow, Told;
    var y := Run(g, steps).value;
    RunKeeps(g, steps);
    RunTold(g, steps);
    RoundSends(y, round);
    RoundRuns(y, round);
    p :| CarriesScreen(p, RunFrom(y, round).value, y.server.seqNum, y.server.screen);
  }

  lemma RoundRuns(y: Sys, round: seq<Step>)
    requires ValidSys(y) && Round(y, round)
    ensures RunFrom(y, round).Some?
  {
  }

  // ----- what the client makes of it -----

  lemma JobIsNew(y: Sys, q: ClientPacket, now: Time, env: Srv.Env)
    requires AtWindow(y.server)
    ensures var f := Srv.Feed(y.server, q, now, env); f.job.Some? ==> f.job.value.seqNum > y.server.seqNum
  {
    hide Srv.Feed;
    FeedOwes(y.server, q, now, env);
  }

  /** Recorded grids and packets stay as they are from step to step. */
  lemma StepKeepsCarried(y: Sys, step: Step, p: ServerPacket, from: nat, screen: Grid)
    requires ValidSys(y) && Enabled(y, step) && ScreenInv(y) && AtWindow(y.server) && CarriesScreen(p, y, from, screen)
    ensures CarriesScreen(p, Next(y, step), from, screen)
  {
    hide ScreenInv, Srv.Feed, Srv.Finish, Fits, Cli.Feed, Cli.FeedStdin, Cli.OnWinch, Cli.Tick, ServerSide, Srv.ResetBy;
    RecordedBelow(y);
    match step.event {
      case ServerReceives(q, env) => JobIsNew(y, q, step.now, env);
      case HandshakeArrives(q, env) => JobIsNew(y, q, step.now, env);
      case ServerTick(echo) => FinishOwes(y.server, y.server, [], [], step.now, echo);
      case _ =>
    }
  }

  lemma {:induction false} CarriedLater(g: Config, steps: seq<Step>, later: seq<Step>, p: ServerPacket, from: nat,
                                        screen: Grid)
    requires ValidConfig(g) && Run(g, steps).Some? && CarriesScreen(p, Run(g, steps).value, from, screen)
    requires Run(g, steps + later).Some?
    ensures CarriesScreen(p, Run(g, steps + later).value, from, screen)
    decreases |later|
  {
    hide CarriesScreen, Enabled, Next, ValidSys, ScreenInv, AtWindow, Told;
    if later == [] {
      assert steps + later == steps;
    } else {
      var all := steps + later;
      assert all[..|all| - 1] == steps + later[..|later| - 1];
      CarriedLater(g, steps, later[..|later| - 1], p, from, screen);
      RunKeeps(g, all[..|all| - 1]);
      RunTold(g, all[..|all| - 1]);
      StepKeepsCarried(Run(g, all[..|all| - 1]).value, all[|all| - 1], p, from, screen);
    }
  }

  /** The client takes this packet now: it is newer than what it acknowledged, and it does not panic on it. */
  predicate Takes(c: Cli.Client, p: ServerPacket) {
    c.ackSeq < p.seqNum && !Cli.Panics(c, p)
  }

  /** The client ends with this screen: as its newest remembered state and, below pending keystrokes, as its mirror. */
  ghost predicate EndsWith(c: Cli.Client, p: ServerPacket, now: Time, screen: Grid)
    requires Cli.ValidClient(c) && p.payload.FramePayload?
  {
    var d := Cli.Feed(c, p, now).client;
    && d.history != [] && d.history[|d.history| - 1] == Snapshot(p.seqNum, screen)
    && ShowsFrame(d.mirror, screen, p.payload.update.echo, Typed(Survivors(c.mirror.queue, Max(p.ack, p.seqNum))))
  }

  /** Whenever a client takes the packet that carries a screen, it ends with exactly that screen. */
  lemma CarriedScreenIsShown(g: Config, steps: seq<Step>, p: ServerPacket, from: nat, screen: Grid, now: Time)
    requires ValidConfig(g) && Run(g, steps).Some? && CarriesScreen(p, Run(g, steps).value, from, screen)
    requires Takes(Run(g, steps).value.client, p)
    ensures EndsWith(Run(g, steps).value.client, p, now, screen)
  {
    hide Run, Cli.Feed, ShowsFrame, Typed, Survivors, Cli.Panics;
    AcceptedFrameIsExact(g, steps, p, now);
  }

  /**
   * One-round healing in one statement: after the round there is a frame such that, wherever the run
   * goes from there, a client that receives it before any packet numbered above it ends with exactly
   * the screen the server had when the round began.
   */
  lemma OneRoundHealsAnyLoss(g: Config, steps: seq<Step>, round: seq<Step>, later: seq<Step>, now: Time)
      returns (p: ServerPacket)
    requires ValidConfig(g) && Run(g, steps).Some? && Round(Run(g, steps).value, round)
    requires Run(g, steps + round + later).Some?
    ensures var s, y := Run(g, steps).value.server, Run(g, steps + round + later).value;
            && CarriesScreen(p, y, s.seqNum, s.screen)
            && (Takes(y.client, p) ==> EndsWith(y.client, p, now, s.screen))
  {
    hide Run, RunFrom, Round, ValidSys, CarriesScreen, Takes, EndsWith;
    var s := Run(g, steps).value.server;
    p := OneRoundSendsTheScreen(g, steps, round);
    RoundRuns(Run(g, steps).value, round);
    RunJoin(g, steps, round);
    CarriedLater(g, steps + round, later, p, s.seqNum, s.screen);
    if Takes(Run(g, steps + round + later).value.client, p) {
      CarriedScreenIsShown(g, steps + round + later, p, s.seqNum, s.screen, now);
    }
    CarriedIsFrame(p, Run(g, steps + round + later).value, s.seqNum, s.screen);
  }

  lemma CarriedIsFrame(p: ServerPacket, y: Sys, from: nat, screen: Grid)
    requires CarriesScreen(p, y, from, screen)
    ensures p.payload.FramePayload?
  {
  }

  lemma RunJoin(g: Config, a: seq<Step>, b: seq<Step>)
    requires ValidConfig(g) && Run(g, a).Some?
    ensures Run(g, a + b) == RunFrom(Run(g, a).value, b)
  {
    hide RunFrom, ValidSys;
    InitValid(g);
    RunFromJoin(Init(g), a, b);
  }
}

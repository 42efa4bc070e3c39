/** Frame pacing and the server's frame history, on every run, resets included. */
module FramePacing {
  import opened Base
  import opened TerminalGrid
  import opened Protocol
  import opened Network
  import Srv = ServerSession
  import Cli = ClientSession

  // ----- pacing -----

  /** How long a frame job keeps from the one before it: more when the PTY floods at that moment. */
  function Pace(j: JobMark): (r: nat) {
    if j.flooding then 150 else 16
  }

  predicate Paced(jobs: seq<JobMark>) {
    forall i | 0 < i < |jobs| :: jobs[i].time - jobs[i - 1].time >= Pace(jobs[i])
  }

  /** The last sync is the last job, and none lies ahead of the clock. */
  predicate PaceInv(y: Sys) {
    && Paced(y.trace.jobs) && y.server.lastSync <= y.clock
    && (y.trace.jobs != [] ==> y.trace.jobs[|y.trace.jobs| - 1].time == y.server.lastSync && y.server.seqNum > 0)
  }

  /** A frame job waits for its interval, unless the server has not sent anything yet. */
  predicate PacedJob(s: Srv.Server, f: Srv.Fed, now: Time) {
    && (f.job.Some? ==> f.server.lastSync == now && f.server.seqNum > 0
                        && (s.seqNum > 0 ==> Since(now, s.lastSync) >= Srv.MinInterval(s, now)))
    && (f.job.None? ==> f.server.lastSync == s.lastSync && f.server.seqNum >= s.seqNum)
  }

  lemma SyncPaced(s: Srv.Server, now: Time, echo: bool)
    ensures var r := Srv.CheckSync(s, now, echo);
            && (r.job.Some? ==> r.server.lastSync == now && r.server.seqNum > 0
                                && (s.seqNum > 0 ==> Since(now, s.lastSync) >= Srv.MinInterval(s, now)))
            && (r.job.None? ==> r.server.lastSync == s.lastSync && r.server.seqNum == s.seqNum)
  {
    hide Srv.PruneHistory, Srv.ReferenceFor, Record;
  }

  lemma FinishPaced(s0: Srv.Server, s: Srv.Server, replies: seq<Srv.ServerAction>, items: seq<Srv.Item>, now: Time,
                    echo: bool)
    requires s.lastSync == s0.lastSync && s.lastPty == s0.lastPty && s.ptyAcc == s0.ptyAcc && s.seqNum >= s0.seqNum
    ensures PacedJob(s0, Srv.Finish(s, replies, items, now, echo), now)
  {
    hide Srv.CheckSync;
    SyncPaced(s, now, echo);
  }

  lemma FeedPaced(s: Srv.Server, p: ClientPacket, now: Time, env: Srv.Env)
    ensures PacedJob(s, Srv.Feed(s, p, now, env), now)
  {
    hide Srv.Finish, Srv.ProcessItems, Srv.Contiguous, Srv.Remaining, PacedJob;
    var s1 := s.(lastRecv := now);
    NoJob(s, s, now);
    NoJob(s, s1, now);
    NoJob(s, s1.(outOfOrder := s.outOfOrder[p.seqNum := p.payload]), now);
    if p.sessionId == 0 {
      var r := Srv.Reset(s, p, now);
      FinishPaced(s, r, [Srv.SendPacket(ServerPacket(r.seqNum, p.seqNum, HandshakeAck(s.sessionId)))], [], now,
                  env.echo);
    } else if Srv.IsTransient(p) {
      FinishPaced(s, if p.ack > s.clientAck then s1.(clientAck := p.ack) else s1,
                  match p.payload
                  case FragmentNack(frameSeq, mask) => [Srv.ResendFragments(frameSeq, mask)]
                  case _ => [], [], now, env.echo);
    } else if p.seqNum == s.expected {
      var done := Srv.ProcessItems(Srv.Advance(s1, p), Srv.Released(s1, p), env.resized);
      Srv.ProcessChangesLittle(Srv.Advance(s1, p), Srv.Released(s1, p), env.resized);
      FinishPaced(s, done.server, done.replies, Srv.Released(s1, p), now, env.echo);
    }
  }

  lemma NoJob(s: Srv.Server, t: Srv.Server, now: Time)
    requires t.lastSync == s.lastSync && t.seqNum >= s.seqNum
    ensures PacedJob(s, Srv.Fed(t, [], [], None), now)
  {
  }

  lemma ServerStepPaced(y: Sys, f: Srv.Fed, now: Time, reset: bool)
    requires PaceInv(y) && Srv.FedOk(f) && PacedJob(y.server, f, now) && now >= y.clock
    ensures PaceInv(AfterServer(y, f, now, reset))
  {
    hide Srv.ValidServer, Srv.ValidJob, Srv.RunJob, Srv.Flooding;
  }

  lemma StepPaced(y: Sys, step: Step)
    requires ValidSys(y) && Enabled(y, step) && PaceInv(y)
    ensures PaceInv(Next(y, step))
  {
    hide Srv.Feed, Srv.Finish, Fits, Cli.Feed, Cli.FeedStdin, Cli.OnWinch, Cli.Tick, PacedJob, Srv.FedOk, AfterServer,
         Paced;
    var s, now := y.server, step.now;
    match step.event {
      case ServerReceives(p, env) =>
        FeedPaced(s, p, now, env);
        FedFits(y, p, now, env);
        ServerStepPaced(y, Srv.Feed(s, p, now, env), now, p.sessionId == 0 && Srv.ResetBy(s, now));
      case HandshakeArrives(p, env) =>
        FeedPaced(s, p, now, env);
        FedFits(y, p, now, env);
        ServerStepPaced(y, Srv.Feed(s, p, now, env), now, Srv.ResetBy(s, now));
      case ServerTick(echo) =>
        FinishPaced(s, s, [], [], now, echo);
        Srv.FinishValid(s, [], [], now, echo);
        ServerStepPaced(y, Srv.Finish(s, [], [], now, echo), now, false);
      case ServerShutdown =>
        ShutdownPaced(s, now);
        ServerStepPaced(y, Srv.PrepareShutdown(s), now, false);
      case _ =>
    }
  }

  lemma ShutdownPaced(s: Srv.Server, now: Time)
    requires Srv.ValidServer(s)
    ensures Srv.FedOk(Srv.PrepareShutdown(s)) && PacedJob(s, Srv.PrepareShutdown(s), now)
  {
  }

  lemma {:induction false} RunPaced(g: Config, steps: seq<Step>)
    requires ValidConfig(g) && Run(g, steps).Some?
    ensures PaceInv(Run(g, steps).value)
    decreases |steps|
  {
    hide Enabled, Next, ValidSys;
    if steps != [] {
      hide PaceInv;
      RunPaced(g, steps[..|steps| - 1]);
      StepPaced(Run(g, steps[..|steps| - 1]).value, steps[|steps| - 1]);
    }
  }

  lemma {:induction false} PacedSpan(jobs: seq<JobMark>, i: nat, j: nat)
    requires Paced(jobs) && i <= j < |jobs|
    ensures jobs[j].time - jobs[i].time >= 16 * (j - i)
    decreases j
  {
    if i < j {
      PacedSpan(jobs, i, j - 1);
    }
  }

  /**
   * On every run, packet-driven and tick-driven syncs and resets included, consecutive frame jobs are
   * at least 16 ms apart, 150 ms while the PTY floods, so jobs i to j within T ms are at most 1 + T / 16.
   */
  lemma FrameRateIsBounded(g: Config, steps: seq<Step>, i: nat, j: nat, window: nat)
    requires ValidConfig(g) && Run(g, steps).Some? && i <= j < |Run(g, steps).value.trace.jobs|
    requires var jobs := Run(g, steps).value.trace.jobs; jobs[j].time - jobs[i].time <= window
    ensures Paced(Run(g, steps).value.trace.jobs) && j - i + 1 <= 1 + window / 16
  {
    hide Run;
    RunPaced(g, steps);
    PacedSpan(Run(g, steps).value.trace.jobs, i, j);
  }

  // ----- the frame history -----

  predicate IsSuffix(a: seq<Snapshot>, b: seq<Snapshot>) {
    |a| <= |b| && a == b[|b| - |a|..]
  }

  predicate RisesTo(queued: seq<Snapshot>, top: nat) {
    && (forall i, j | 0 <= i < j < |queued| :: queued[i].seqNum < queued[j].seqNum)
    && (forall h | h in queued :: h.seqNum <= top)
  }

  /** The newest part of what was queued: at most 200 frames, and at least the newest 100 of them. */
  predicate HistoryInv(history: seq<Snapshot>, queued: seq<Snapshot>, top: nat) {
    && IsSuffix(history, queued) && RisesTo(queued, top)
    && |history| <= 200 && |history| >= Min(|queued|, 100)
  }

  lemma RecordKeepsHistory(history: seq<Snapshot>, queued: seq<Snapshot>, top: nat, clientAck: nat, h: Snapshot)
    requires HistoryInv(history, queued, top) && h.seqNum > top
    ensures HistoryInv(Record(Srv.PruneHistory(history, clientAck), h), queued + [h], h.seqNum)
  {
    hide Srv.PruneHistory, RisesTo;
    Srv.PruneIsSuffix(history, clientAck);
    var pruned := Srv.PruneHistory(history, clientAck);
    var r := Record(pruned, h);
    assert pruned == queued[|queued| - |pruned|..];
    assert r == (queued + [h])[|queued| + 1 - |r|..];
    Rises(queued, top, h);
  }

  lemma Rises(queued: seq<Snapshot>, top: nat, h: Snapshot)
    requires RisesTo(queued, top) && h.seqNum > top
    ensures RisesTo(queued + [h], h.seqNum)
  {
    assert forall i | 0 <= i < |queued| :: queued[i] in queued;
  }

  predicate FedHistory(f: Srv.Fed, queued: seq<Snapshot>) {
    HistoryInv(f.server.history, QueueJob(queued, f.job), f.server.seqNum)
  }

  lemma FinishHistory(s: Srv.Server, queued: seq<Snapshot>, replies: seq<Srv.ServerAction>, items: seq<Srv.Item>,
                      now: Time, echo: bool)
    requires HistoryInv(s.history, queued, s.seqNum)
    ensures FedHistory(Srv.Finish(s, replies, items, now, echo), queued)
  {
    hide Srv.PruneHistory, Record, Srv.ReferenceFor, HistoryInv;
    RecordKeepsHistory(s.history, queued, s.seqNum, s.clientAck, Snapshot(s.seqNum + 1, s.screen));
  }

  lemma TopRises(history: seq<Snapshot>, queued: seq<Snapshot>, top: nat, top': nat)
    requires HistoryInv(history, queued, top) && top <= top'
    ensures HistoryInv(history, queued, top')
  {
  }

  lemma FeedHistory(s: Srv.Server, queued: seq<Snapshot>, p: ClientPacket, now: Time, env: Srv.Env)
    requires HistoryInv(s.history, queued, s.seqNum)
    ensures FedHistory(Srv.Feed(s, p, now, env), if p.sessionId == 0 && Srv.ResetBy(s, now) then [] else queued)
  {
    hide Srv.Finish, Srv.ProcessItems, Srv.Contiguous, Srv.Remaining, HistoryInv;
    var s1 := s.(lastRecv := now);
    if p.sessionId == 0 {
      var r := Srv.Reset(s, p, now);
      Cleared(r.seqNum);
      FinishHistory(r, [], [Srv.SendPacket(ServerPacket(r.seqNum, p.seqNum, HandshakeAck(s.sessionId)))], [], now,
                    env.echo);
    } else if Srv.IsTransient(p) {
      FinishHistory(if p.ack > s.clientAck then s1.(clientAck := p.ack) else s1, queued,
                    match p.payload
                    case FragmentNack(frameSeq, mask) => [Srv.ResendFragments(frameSeq, mask)]
                    case _ => [], [], now, env.echo);
    } else if p.seqNum == s.expected {
      var done := Srv.ProcessItems(Srv.Advance(s1, p), Srv.Released(s1, p), env.resized);
      Srv.ProcessChangesLittle(Srv.Advance(s1, p), Srv.Released(s1, p), env.resized);
      TopRises(s.history, queued, s.seqNum, done.server.seqNum);
      FinishHistory(done.server, queued, done.replies, Srv.Released(s1, p), now, env.echo);
    }
  }

  lemma Cleared(top: nat)
    ensures HistoryInv([], [], top)
  {
  }

  lemma StepHistory(y: Sys, step: Step)
    requires ValidSys(y) && Enabled(y, step) && HistoryInv(y.server.history, y.trace.queued, y.server.seqNum)
    ensures var z := Next(y, step); HistoryInv(z.server.history, z.trace.queued, z.server.seqNum)
  {
    hide Srv.Feed, Srv.Finish, Fits, Cli.Feed, Cli.FeedStdin, Cli.OnWinch, Cli.Tick, HistoryInv;
    match step.event {
      case ServerReceives(p, env) => FeedHistory(y.server, y.trace.queued, p, step.now, env);
      case HandshakeArrives(p, env) => FeedHistory(y.server, y.trace.queued, p, step.now, env);
      case ServerTick(echo) => FinishHistory(y.server, y.trace.queued, [], [], step.now, echo);
      case ServerShutdown => TopRises(y.server.history, y.trace.queued, y.server.seqNum, y.server.seqNum + 1);
      case _ =>
    }
  }

  /**
   * On every run the server remembers the newest frames queued since the last reset: all, or at least 100, at
   * most 200.
   */
  lemma {:induction false} HistoryIsNewestFrames(g: Config, steps: seq<Step>)
    requires ValidConfig(g) && Run(g, steps).Some?
    ensures var y := Run(g, steps).value; HistoryInv(y.server.history, y.trace.queued, y.server.seqNum)
    decreases |steps|
  {
    hide Enabled, Next, ValidSys;
    if steps != [] {
      hide HistoryInv;
      HistoryIsNewestFrames(g, steps[..|steps| - 1]);
      StepHistory(Run(g, steps[..|steps| - 1]).value, steps[|steps| - 1]);
    }
  }

  // ----- a changed screen gets sent -----

  /** A screen not marked dirty is the newest recorded frame, unless nothing was recorded yet. */
  predicate Fresh(s: Srv.Server) {
    !s.dirty && s.history != [] ==> Srv.LastRecordedIs(s.history, s.screen)
  }

  lemma RecordIsLast(history: seq<Snapshot>, h: Snapshot)
    ensures Srv.LastRecordedIs(Record(history, h), h.grid)
  {
  }

  /** A sync keeps this, and one that is not throttled leaves a dirty screen recorded as the newest frame. */
  lemma SyncFresh(s: Srv.Server, now: Time, echo: bool)
    requires Fresh(s)
    ensures var t := Srv.CheckSync(s, now, echo).server;
            Fresh(t) && (s.dirty && !Srv.Throttled(s, now) ==> !t.dirty && Srv.LastRecordedIs(t.history, t.screen))
  {
    hide Srv.PruneHistory, Srv.ReferenceFor, Record;
    RecordIsLast(Srv.PruneHistory(s.history, s.clientAck), Snapshot(s.seqNum + 1, s.screen));
  }

  lemma {:induction false} ItemsFresh(s: Srv.Server, items: seq<Srv.Item>, resized: Grid)
    requires Fresh(s)
    ensures Fresh(Srv.ProcessItems(s, items, resized).server)
    decreases |items|
  {
    if items != [] {
      ItemsFresh(s, items[..|items| - 1], resized);
    }
  }

  lemma FeedFresh(s: Srv.Server, p: ClientPacket, now: Time, env: Srv.Env)
    requires Fresh(s)
    ensures Fresh(Srv.Feed(s, p, now, env).server)
  {
    hide Srv.CheckSync, Srv.ProcessItems, Srv.Contiguous, Srv.Remaining, Srv.LastRecordedIs;
    var s1 := s.(lastRecv := now);
    if p.sessionId == 0 {
      SyncFresh(Srv.Reset(s, p, now), now, env.echo);
    } else if Srv.IsTransient(p) {
      SyncFresh(if p.ack > s.clientAck then s1.(clientAck := p.ack) else s1, now, env.echo);
    } else if p.seqNum == s.expected {
      ItemsFresh(Srv.Advance(s1, p), Srv.Released(s1, p), env.resized);
      SyncFresh(Srv.ProcessItems(Srv.Advance(s1, p), Srv.Released(s1, p), env.resized).server, now, env.echo);
    }
  }

  lemma StepFresh(y: Sys, step: Step)
    requires ValidSys(y) && Enabled(y, step) && Fresh(y.server)
    ensures Fresh(Next(y, step).server)
  {
    hide Srv.Feed, Srv.CheckSync, Fits, Cli.Feed, Cli.FeedStdin, Cli.OnWinch, Cli.Tick, Srv.LastRecordedIs;
    match step.event {
      case ServerReceives(p, env) => FeedFresh(y.server, p, step.now, env);
      case HandshakeArrives(p, env) => FeedFresh(y.server, p, step.now, env);
      case ServerTick(echo) => SyncFresh(y.server, step.now, echo);
      case _ =>
    }
  }

  lemma {:induction false} RunFresh(g: Config, steps: seq<Step>)
    requires ValidConfig(g) && Run(g, steps).Some?
    ensures Fresh(Run(g, steps).value.server)
    decreases |steps|
  {
    hide Enabled, Next, ValidSys;
    if steps != [] {
      hide Fresh;
      RunFresh(g, steps[..|steps| - 1]);
      StepFresh(Run(g, steps[..|steps| - 1]).value, steps[|steps| - 1]);
    }
  }

  /**
   * On every run a clean server has recorded its screen as the newest frame, if it recorded any, and
   * one tick that is not throttled makes a dirty one so: skipping identical frames loses no change.
   */
  lemma NoChangeIsLost(g: Config, steps: seq<Step>, now: Time, echo: bool)
    requires ValidConfig(g) && Run(g, steps).Some?
    ensures var s := Run(g, steps).value.server;
            var t := Srv.CheckSync(s, now, echo).server;
            && (!s.dirty && s.history != [] ==> Srv.LastRecordedIs(s.history, s.screen))
            && (s.dirty && !Srv.Throttled(s, now) ==> !t.dirty && Srv.LastRecordedIs(t.history, t.screen))
  {
    hide Run, Srv.CheckSync, Srv.LastRecordedIs;
    RunFresh(g, steps);
    SyncFresh(Run(g, steps).value.server, now, echo);
  }
}

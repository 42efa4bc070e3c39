/** When the server throttles for a flood of terminal output, and when it does not, on every run. */
module Flooding {
  import opened Base
  import opened TerminalGrid
  import opened Protocol
  import opened Network
  import opened Healing
  import Srv = ServerSession
  import Cli = ClientSession

  /** The bytes of terminal output in these steps. */
  function OutputIn(steps: seq<Step>): (bytes: nat) {
    if steps == [] then 0
    else
      var last := steps[|steps| - 1];
      OutputIn(steps[..|steps| - 1]) + (if last.event.PtyOutput? then last.event.count else 0)
  }

  /** When the terminal last produced output, or `start`. */
  function LastOutput(start: Time, steps: seq<Step>): (t: Time) {
    if steps == [] then start
    else
      var last := steps[|steps| - 1];
      if last.event.PtyOutput? then last.now else LastOutput(start, steps[..|steps| - 1])
  }

  // ----- what one entry point does to the count -----

  /** The count is kept, or it starts over after 50 ms without output. */
  predicate CountKept(s: Srv.Server, t: Srv.Server, now: Time) {
    && t.lastPty == s.lastPty
    && (t.ptyAcc == s.ptyAcc || (t.ptyAcc == 0 && Since(now, s.lastPty) >= 50))
  }

  lemma SyncCounts(s: Srv.Server, now: Time, echo: bool)
    ensures CountKept(s, Srv.CheckSync(s, now, echo).server, now)
    ensures !Srv.Throttled(s, now) && Since(now, s.lastPty) >= 50 ==> Srv.CheckSync(s, now, echo).server.ptyAcc == 0
  {
    hide Srv.PruneHistory, Srv.ReferenceFor, Record;
  }

  lemma FeedCounts(s: Srv.Server, p: ClientPacket, now: Time, env: Srv.Env)
    ensures CountKept(s, Srv.Feed(s, p, now, env).server, now)
  {
    hide Srv.CheckSync, Srv.ProcessItems, Srv.Contiguous, Srv.Remaining;
    var s1 := s.(lastRecv := now);
    if p.sessionId == 0 {
      SyncCounts(Srv.Reset(s, p, now), now, env.echo);
    } else if Srv.IsTransient(p) {
      SyncCounts(if p.ack > s.clientAck then s1.(clientAck := p.ack) else s1, now, env.echo);
    } else if p.seqNum == s.expected {
      Srv.ProcessChangesLittle(Srv.Advance(s1, p), Srv.Released(s1, p), env.resized);
      SyncCounts(Srv.ProcessItems(Srv.Advance(s1, p), Srv.Released(s1, p), env.resized).server, now, env.echo);
    }
  }

  /** What a step does to the count. */
  predicate StepCounted(s: Srv.Server, t: Srv.Server, step: Step) {
    if step.event.PtyOutput?
    then t.lastPty == step.now && t.ptyAcc == Min(s.ptyAcc + step.event.count, Srv.USIZE_MAX)
    else CountKept(s, t, step.now)
  }

  lemma StepCounts(y: Sys, step: Step)
    requires ValidSys(y) && Enabled(y, step)
    ensures StepCounted(y.server, Next(y, step).server, step)
  {
    hide Srv.Feed, Srv.CheckSync, Fits, Cli.Feed, Cli.FeedStdin, Cli.OnWinch, Cli.Tick;
    match step.event {
      case ServerReceives(p, env) => FeedCounts(y.server, p, step.now, env);
      case HandshakeArrives(p, env) => FeedCounts(y.server, p, step.now, env);
      case ServerTick(echo) => SyncCounts(y.server, step.now, echo);
      case _ =>
    }
  }

  // ----- over runs -----

  lemma {:induction false} CountBounded(y: Sys, steps: seq<Step>)
    requires ValidSys(y) && RunFrom(y, steps).Some?
    ensures var z := RunFrom(y, steps).value.server;
            z.ptyAcc <= y.server.ptyAcc + OutputIn(steps) && z.lastPty == LastOutput(y.server.lastPty, steps)
    decreases |steps|
  {
    hide Enabled, Next, ValidSys;
    if steps != [] {
      CountBounded(y, steps[..|steps| - 1]);
      StepCounts(RunFrom(y, steps[..|steps| - 1]).value, steps[|steps| - 1]);
    }
  }

  /** At every step of the burst the terminal produced output less than 50 ms before. */
  predicate Incessant(start: Time, burst: seq<Step>) {
    burst != [] ==>
      var before, last := burst[..|burst| - 1], burst[|burst| - 1];
      Incessant(start, before) && (last.event.PtyOutput? || last.now - LastOutput(start, before) < 50)
  }

  lemma {:induction false} BurstCounted(y: Sys, burst: seq<Step>)
    requires ValidSys(y) && RunFrom(y, burst).Some? && Incessant(y.server.lastPty, burst)
    ensures RunFrom(y, burst).value.server.ptyAcc >= Min(OutputIn(burst), Srv.USIZE_MAX)
    decreases |burst|
  {
    hide Enabled, Next, ValidSys;
    if burst != [] {
      var before := burst[..|burst| - 1];
      BurstCounted(y, before);
      CountBounded(y, before);
      StepCounts(RunFrom(y, before).value, burst[|burst| - 1]);
    }
  }

  /**
   * On every run: after more than 2048 bytes of incessant output, the last less than 50 ms ago, no frame is
   * queued within 150 ms of the last one.
   */
  lemma FloodSlowsFrames(g: Config, steps: seq<Step>, burst: seq<Step>, now: Time, echo: bool)
    requires ValidConfig(g) && Run(g, steps).Some? && RunFrom(Run(g, steps).value, burst).Some?
    requires Incessant(LastOutput(g.now, steps), burst) && OutputIn(burst) > 2048
    requires now - LastOutput(LastOutput(g.now, steps), burst) < 50
    ensures var s := RunFrom(Run(g, steps).value, burst).value.server;
            s.seqNum > 0 && now - s.lastSync < 150 ==> Srv.CheckSync(s, now, echo).job.None?
  {
    hide RunFrom, Srv.Emit;
    InitValid(g);
    CountBounded(Init(g), steps);
    CountBounded(Run(g, steps).value, burst);
    BurstCounted(Run(g, steps).value, burst);
  }

  /**
   * And without it frames keep their 16 ms: when all the output so far was at most 2048 bytes, or the last of
   * it is at least 50 ms old, a frame that is owed is queued as soon as the last one is 16 ms old.
   */
  lemma CalmDoesNot(g: Config, steps: seq<Step>, now: Time, echo: bool)
    requires ValidConfig(g) && Run(g, steps).Some?
    requires OutputIn(steps) <= 2048 || now - LastOutput(g.now, steps) >= 50
    ensures var s := Run(g, steps).value.server;
            now - s.lastSync >= 16 && Owes(s) ==> Srv.CheckSync(s, now, echo).job.Some?
  {
    hide RunFrom, Srv.CheckSync, Owes;
    InitValid(g);
    CountBounded(Init(g), steps);
    SyncEmitsIff(Run(g, steps).value.server, now, echo);
  }

  /** A sync that is not throttled, 50 ms after the last output, forgets what was counted before it. */
  lemma CountStartsOver(g: Config, steps: seq<Step>, echo: bool, now: Time, later: seq<Step>)
    requires ValidConfig(g) && Run(g, steps).Some? && now - LastOutput(g.now, steps) >= 50
    requires var tick := Step(now, ServerTick(echo));
             && Enabled(Run(g, steps).value, tick) && !Srv.Throttled(Run(g, steps).value.server, now)
             && RunFrom(Next(Run(g, steps).value, tick), later).Some?
    ensures var ticked := Next(Run(g, steps).value, Step(now, ServerTick(echo)));
            RunFrom(ticked, later).value.server.ptyAcc <= OutputIn(later)
  {
    hide RunFrom, Srv.CheckSync, Srv.Throttled;
    InitValid(g);
    CountBounded(Init(g), steps);
    SyncCounts(Run(g, steps).value.server, now, echo);
    CountBounded(Next(Run(g, steps).value, Step(now, ServerTick(echo))), later);
  }
}

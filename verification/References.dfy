/** What every frame is diffed against, and when a handshake is heeded, in terms of what the server heard. */
module References {
  import opened Base
  import opened TerminalGrid
  import opened Protocol
  import opened Network
  import opened InputChannel
  import opened InputRuns
  import opened ScreenChannel
  import opened ScreenRuns
  import Srv = ServerSession
  import Cli = ClientSession

  // ----- what the server has heard -----

  /**
   * The frame number the client last acknowledged to the server: a transient packet can only raise it, the
   * packet that is next in order sets it, and a session reset forgets it.
   */
  ghost function ClientAcked(y: Sys, steps: seq<Step>): (ack: nat)
    requires ValidSys(y) && RunFrom(y, steps).Some?
    decreases |steps|
  {
    if steps == [] then 0
    else
      var before, last := steps[..|steps| - 1], steps[|steps| - 1];
      AckedAfter(RunFrom(y, before).value, last, ClientAcked(y, before))
  }

  function AckedAfter(y: Sys, step: Step, ack: nat): (r: nat) {
    match step.event
    case HandshakeArrives(_, _) => if Resets(y, step) then 0 else ack
    case ServerReceives(p, _) =>
      if p.payload.Ack? || p.payload.FragmentNack? then Max(ack, p.ack)
      else if p.seqNum == y.server.expected then p.ack
      else ack
    case _ => ack
  }

  /** When the server last heard of the client: a packet of the session, or a handshake that reset it. */
  ghost function HeardAt(y: Sys, steps: seq<Step>, start: Time): (t: Time)
    requires ValidSys(y) && RunFrom(y, steps).Some?
    decreases |steps|
  {
    if steps == [] then start
    else
      var before, last := steps[..|steps| - 1], steps[|steps| - 1];
      if last.event.ServerReceives? || Resets(RunFrom(y, before).value, last) then last.now
      else HeardAt(y, before, start)
  }

  predicate HeardInv(y: Sys, ack: nat, at: Time) {
    y.server.clientAck == ack && y.server.lastRecv == at <= y.clock
  }

  // ----- the job of one entry point -----

  /** A job is diffed against the acknowledged frame when it is remembered and at most five numbers behind. */
  predicate DiffedAgainst(j: Srv.UpdateJob, ack: nat, remembered: Option<Grid>) {
    if j.seqNum <= ack + 6 && remembered.Some? then j.refSeq == ack && j.refState == remembered
    else j.refSeq == 0 && j.refState == None
  }

  predicate FedHeard(f: Srv.Fed, ack: nat, at: Time, remembered: Option<Grid>) {
    && f.server.clientAck == ack && f.server.lastRecv == at
    && (f.job.Some? ==> DiffedAgainst(f.job.value, ack, remembered))
  }

  lemma SyncHeard(s: Srv.Server, now: Time, echo: bool)
    ensures var r := Srv.CheckSync(s, now, echo);
            && r.server.clientAck == s.clientAck && r.server.lastRecv == s.lastRecv
            && (r.job.Some? ==> DiffedAgainst(r.job.value, s.clientAck, Find(s.history, s.clientAck)))
  {
    hide Srv.PruneHistory, Find, Record;
    PruneKeepsReference(s.history, s.clientAck);
  }

  lemma FinishHeard(s: Srv.Server, replies: seq<Srv.ServerAction>, items: seq<Srv.Item>, now: Time, echo: bool)
    ensures FedHeard(Srv.Finish(s, replies, items, now, echo), s.clientAck, s.lastRecv, Find(s.history, s.clientAck))
  {
    hide Srv.CheckSync, Find;
    SyncHeard(s, now, echo);
  }

  lemma HandshakeHeard(s: Srv.Server, p: ClientPacket, now: Time, env: Srv.Env)
    requires p.sessionId == 0
    ensures var f := Srv.Feed(s, p, now, env);
            if Srv.ResetBy(s, now) then FedHeard(f, 0, now, None) else f.server == s && f.job.None?
  {
    hide Srv.Finish, FedHeard;
    var r := Srv.Reset(s, p, now);
    FinishHeard(r, [Srv.SendPacket(ServerPacket(r.seqNum, p.seqNum, HandshakeAck(s.sessionId)))], [], now, env.echo);
    assert Find([], 0) == None;
  }

  lemma InOrderHeard(s: Srv.Server, p: ClientPacket, now: Time, env: Srv.Env)
    ensures FedHeard(Srv.FeedInOrder(s, p, now, env), p.ack, s.lastRecv, Find(s.history, p.ack))
  {
    hide Srv.Finish, Srv.ProcessItems, Srv.Contiguous, Srv.Remaining, FedHeard, Find;
    var s1 := Srv.Advance(s, p);
    var done := Srv.ProcessItems(s1, Srv.Released(s, p), env.resized);
    Srv.ProcessChangesLittle(s1, Srv.Released(s, p), env.resized);
    FinishHeard(done.server, done.replies, Srv.Released(s, p), now, env.echo);
  }

  lemma PacketHeard(s: Srv.Server, p: ClientPacket, now: Time, env: Srv.Env)
    requires p.sessionId == s.sessionId != 0
    requires p.seqNum >= TRANSIENT_BIT ==> p.payload.Ack? || p.payload.FragmentNack?
    ensures var ack := if p.payload.Ack? || p.payload.FragmentNack? then Max(s.clientAck, p.ack)
                       else if p.seqNum == s.expected then p.ack else s.clientAck;
            FedHeard(Srv.Feed(s, p, now, env), ack, now, Find(s.history, ack))
  {
    hide Srv.Finish, Srv.FeedInOrder, FedHeard, Find;
    var s1 := s.(lastRecv := now);
    InOrderHeard(s1, p, now, env);
    NoJobHeard(s, s1, now);
    NoJobHeard(s, s1.(outOfOrder := s.outOfOrder[p.seqNum := p.payload]), now);
    var raised := if p.ack > s.clientAck then s1.(clientAck := p.ack) else s1;
    var replies := match p.payload
      case FragmentNack(frameSeq, mask) => [Srv.ResendFragments(frameSeq, mask)]
      case _ => [];
    FinishHeard(raised, replies, [], now, env.echo);
  }

  lemma NoJobHeard(s: Srv.Server, t: Srv.Server, at: Time)
    requires t.clientAck == s.clientAck && t.lastRecv == at
    ensures FedHeard(Srv.Fed(t, [], [], None), s.clientAck, at, Find(s.history, s.clientAck))
  {
  }

  // ----- steps -----

  /** The frame job a step queues, if any. */
  function JobOf(y: Sys, step: Step): (job: Option<Srv.UpdateJob>) {
    match step.event
    case ServerReceives(p, env) => Srv.Feed(y.server, p, step.now, env).job
    case HandshakeArrives(p, env) => Srv.Feed(y.server, p, step.now, env).job
    case ServerTick(echo) => Srv.CheckSync(y.server, step.now, echo).job
    case _ => None
  }

  /** What the server remembers of the acknowledged frame when the step queues its job. */
  function Remembered(y: Sys, step: Step, ack: nat): (g: Option<Grid>) {
    if Resets(y, step) then None else Find(y.server.history, ack)
  }

  lemma ArrivesInSession(y: Sys, e: Stretch, p: ClientPacket)
    requires InputInv(y, e) && p in y.toServer
    ensures p.sessionId == y.server.sessionId != 0
    ensures p.seqNum >= TRANSIENT_BIT ==> p.payload.Ack? || p.payload.FragmentNack?
  {
    hide ServerIn, Sent;
    assert FromClient(p, y.client.sessionId, y.trace.log);
  }

  lemma StepHeard(y: Sys, step: Step, e: Stretch, ack: nat, at: Time)
    requires ValidSys(y) && Enabled(y, step) && InputInv(y, e) && HeardInv(y, ack, at)
    ensures var ack' := AckedAfter(y, step, ack);
            && HeardInv(Next(y, step), ack', if step.event.ServerReceives? || Resets(y, step) then step.now else at)
            && (JobOf(y, step).Some? ==> DiffedAgainst(JobOf(y, step).value, ack', Remembered(y, step, ack')))
  {
    hide Srv.Feed, Srv.CheckSync, Fits, Cli.Feed, Cli.FeedStdin, Cli.OnWinch, Cli.Tick, InputInv, Find, Srv.ResetBy,
         DiffedAgainst, SendTimesAfter, Numbered;
    var s, now := y.server, step.now;
    match step.event {
      case ServerReceives(p, env) =>
        ArrivesInSession(y, e, p);
        PacketHeard(s, p, now, env);
        FedFits(y, p, now, env);
      case HandshakeArrives(p, env) =>
        HandshakeHeard(s, p, now, env);
        FedFits(y, p, now, env);
      case ServerTick(echo) =>
        SyncHeard(s, now, echo);
        Srv.FinishValid(s, [], [], now, echo);
      case _ =>
    }
  }

  lemma {:induction false} RunHeard(g: Config, steps: seq<Step>)
    requires ValidConfig(g) && Run(g, steps).Some? && ValidSys(Init(g))
    ensures HeardInv(Run(g, steps).value, ClientAcked(Init(g), steps), HeardAt(Init(g), steps, g.now))
    decreases |steps|
  {
    hide Enabled, Next, ValidSys, AckedAfter, Resets;
    if steps != [] {
      hide HeardInv, InputInv, PresentStretch;
      var before := steps[..|steps| - 1];
      RunHeard(g, before);
      RunIn(g, before);
      StepHeard(Run(g, before).value, steps[|steps| - 1], PresentStretch(g, before), ClientAcked(Init(g), before),
                HeardAt(Init(g), before, g.now));
    }
  }

  /**
   * On every run each frame is diffed against the frame the client last acknowledged, with exactly the grid
   * recorded for it, when that lies at most five numbers behind the frame before and the server still
   * remembers it; otherwise, and always right after a reset, the frame is a full one.
   */
  lemma EveryFrameDiffsAgainstTheAck(g: Config, steps: seq<Step>, step: Step)
    requires ValidConfig(g) && Run(g, steps).Some? && ValidSys(Init(g)) && Enabled(Run(g, steps).value, step)
    requires JobOf(Run(g, steps).value, step).Some?
    ensures var y, j := Run(g, steps).value, JobOf(Run(g, steps).value, step).value;
            var ack := AckedAfter(y, step, ClientAcked(Init(g), steps));
            var remembered := Remembered(y, step, ack);
            && DiffedAgainst(j, ack, remembered)
            && (remembered.Some? ==> ack in y.trace.recorded && remembered.value == y.trace.recorded[ack])
  {
    hide RunFrom, Next, Enabled, InputInv, PresentStretch, ScreenInv, ValidSys, ClientAcked, HeardAt, AckedAfter, Find,
         Resets, JobOf, DiffedAgainst;
    var y := Run(g, steps).value;
    RunHeard(g, steps);
    RunIn(g, steps);
    RunKeeps(g, steps);
    StepHeard(y, step, PresentStretch(g, steps), ClientAcked(Init(g), steps), HeardAt(Init(g), steps, g.now));
    var ack := AckedAfter(y, step, ClientAcked(Init(g), steps));
    if Find(y.server.history, ack).Some? {
      RememberedIsRecorded(y, ack);
    }
  }

  /**
   * On every run a handshake resets the session if and only if the server has sent nothing yet, or has heard
   * nothing of the client for five seconds.
   */
  lemma HandshakeHeededIff(g: Config, steps: seq<Step>, step: Step)
    requires ValidConfig(g) && Run(g, steps).Some? && ValidSys(Init(g)) && Enabled(Run(g, steps).value, step)
    requires step.event.HandshakeArrives?
    ensures var y := Run(g, steps).value;
            Resets(y, step) <==> y.server.seqNum == 0 || step.now - HeardAt(Init(g), steps, g.now) >= 5000
  {
    hide RunFrom, ValidSys, ClientAcked, HeardAt;
    RunHeard(g, steps);
  }
}

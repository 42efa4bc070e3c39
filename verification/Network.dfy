/**
 * Both sessions joined by a network that may drop, duplicate, delay and reorder: every packet ever
 * sealed stays available, and a step delivers any one of them, or none. A diff job that is skipped
 * because another is in flight is a frame that is never delivered.
 */
module Network {
  import opened Base
  import opened TerminalGrid
  import opened MirroredFrame
  import opened LocalEcho
  import opened EscapeFilter
  import opened Protocol
  import Srv = ServerSession
  import Cli = ClientSession

  /** A frame job queued at this time, and whether the flood condition held then. */
  datatype JobMark = JobMark(time: Time, flooding: bool)

  /** What happened so far; nothing in the two sessions depends on it. */
  datatype Trace = Trace(
    recorded: map<nat, Grid>,         // the grid of every frame the server queued, by sequence number
    queued: seq<Snapshot>,            // the frames queued since the last reset
    jobs: seq<JobMark>,               // the frame jobs
    applied: set<nat>,                // the frames the client applied
    log: seq<ClientPayload>,          // the client's reliable payloads: log[n - 1] carries number n
    processed: seq<Srv.Item>,         // what the server processed
    stdin: seq<byte>,                 // everything typed
    quit: bool,                       // a disconnect command was typed
    sendTimes: map<nat, seq<Time>>,   // when each reliable packet was put on the wire
    lastTick: Time,                   // the client's last tick
    received: set<nat>, lossStart: nat)  // server numbers counted since the last outage, and where counting began

  datatype Sys = Sys(server: Srv.Server, client: Cli.Client, toClient: set<ServerPacket>, toServer: set<ClientPacket>,
                     clock: Time, trace: Trace)

  datatype Event =
    | ClientReceives(serverPacket: ServerPacket)
    | ServerReceives(clientPacket: ClientPacket, env: Srv.Env)
    | HandshakeArrives(handshake: ClientPacket, env: Srv.Env)
    | PtyOutput(count: nat, screen: Grid)
    | ServerTick(echo: bool)
    | ServerShutdown
    | Stdin(buf: seq<byte>)
    | Winch(cols: u16, rows: u16)
    | ClientTick(incomplete: seq<Cli.Report>)

  datatype Step = Step(now: Time, event: Event)

  // ----- start -----

  datatype Config = Config(sessionId: nat, clientStart: nat, serverStart: nat, screen: Grid, mirror: Mirror, now: Time)

  /** The session id is not the handshake's zero, the first screen fits, and nothing is predicted yet. */
  predicate ValidConfig(g: Config) {
    g.sessionId != 0 && Fits(g.screen) && ValidFrame(g.mirror.frame) && g.mirror.queue == []
  }

  function Init(g: Config): (r: Sys) {
    Sys(Srv.InitServer(g.sessionId, g.clientStart, g.screen, g.now),
        Cli.InitClient(g.sessionId, g.serverStart, g.mirror, g.now), {}, {}, g.now,
        Trace(map[], [], [], {}, [], [], [], false, map[], g.now, {}, g.serverStart))
  }

  // ----- steps -----

  predicate ValidSys(y: Sys) {
    Srv.ValidServer(y.server) && Cli.ValidClient(y.client)
  }

  /** Only sealed packets arrive, the screen's cell indices fit in u16, and client numbers stay below bit 63. */
  predicate Enabled(y: Sys, step: Step) {
    && step.now >= y.clock
    && match step.event
       case ClientReceives(p) => p in y.toClient
       case ServerReceives(p, env) => p in y.toServer && Fits(env.resized)
       case HandshakeArrives(p, env) => p.sessionId == 0 && Fits(env.resized)
       case PtyOutput(_, screen) => Fits(screen)
       case ServerTick(_) => true
       case ServerShutdown => true
       case Stdin(_) => y.client.seqNum + 1 < TRANSIENT_BIT
       case Winch(_, _) => y.client.seqNum + 1 < TRANSIENT_BIT
       case ClientTick(incomplete) =>
         y.client.seqNum + 1 < TRANSIENT_BIT && y.client.transientSeq + |incomplete| < TRANSIENT_BIT
  }

  function Replied(replies: seq<Srv.ServerAction>): (r: set<ServerPacket>) {
    set a | a in replies && a.SendPacket? :: a.packet
  }

  function JobPacket(job: Option<Srv.UpdateJob>): (r: set<ServerPacket>)
    requires job.Some? ==> Srv.ValidJob(job.value)
  {
    if job.Some? then {Srv.RunJob(job.value)} else {}
  }

  function RecordJob(recorded: map<nat, Grid>, job: Option<Srv.UpdateJob>): (r: map<nat, Grid>) {
    if job.Some? then recorded[job.value.seqNum := job.value.current] else recorded
  }

  function QueueJob(queued: seq<Snapshot>, job: Option<Srv.UpdateJob>): (r: seq<Snapshot>) {
    if job.Some? then queued + [Snapshot(job.value.seqNum, job.value.current)] else queued
  }

  function AfterServer(y: Sys, f: Srv.Fed, now: Time, reset: bool): (r: Sys)
    requires Srv.FedOk(f)
  {
    var t := y.trace;
    y.(server := f.server, toClient := y.toClient + Replied(f.replies) + JobPacket(f.job), clock := now,
       trace := t.(recorded := RecordJob(t.recorded, f.job),
                   queued := QueueJob(if reset then [] else t.queued, f.job),
                   jobs := if f.job.Some? then t.jobs + [JobMark(now, Srv.Flooding(y.server, now))] else t.jobs,
                   processed := t.processed + f.items))
  }

  function SentBy(actions: seq<Cli.ClientAction>): (r: set<ClientPacket>) {
    set a | a in actions && a.Send? :: a.packet
  }

  /** The payload the client numbered in this step, if any. */
  function Numbered(c: Cli.Client, c': Cli.Client): (r: seq<ClientPayload>) {
    if c'.seqNum == c.seqNum + 1 && c'.seqNum in c'.unacked then [c'.unacked[c'.seqNum].packet.payload] else []
  }

  function SendTimesAfter(times: map<nat, seq<Time>>, c: Cli.Client, c': Cli.Client, resent: set<nat>, now: Time)
    : (r: map<nat, seq<Time>>)
  {
    var again := map k | k in times :: if k in resent then times[k] + [now] else times[k];
    if c'.seqNum == c.seqNum + 1 then again[c'.seqNum := [now]] else again
  }

  function AfterClient(y: Sys, c': Cli.Client, sent: set<ClientPacket>, resent: set<nat>, now: Time): (r: Sys) {
    var t := y.trace;
    y.(client := c', toServer := y.toServer + sent, clock := now,
       trace := t.(log := t.log + Numbered(y.client, c'),
                   sendTimes := SendTimesAfter(t.sendTimes, y.client, c', resent, now)))
  }

  /** The first number with a slot: none counts until a first number is known, and an outage starts over. */
  function CountingFrom(lossStart: nat, expected: nat, restarted: bool, seqNum: nat): (r: nat) {
    if (if restarted then seqNum else expected) == 0 then seqNum + 1 else if restarted then seqNum else lossStart
  }

  /** A client that panics is gone; the run goes on without its answer. */
  function AfterReceive(y: Sys, p: ServerPacket, now: Time): (r: Sys)
    requires Cli.ValidClient(y.client)
  {
    var f := Cli.Feed(y.client, p, now);
    if f.outcome.Panicked? then y.(clock := now) else AfterFed(y, f, p, now)
  }

  function AfterFed(y: Sys, f: Cli.Fed, p: ServerPacket, now: Time): (r: Sys) {
    var z := AfterClient(y, f.client, SentBy(f.actions), {}, now);
    var restarted := Cli.Recovering(y.client.lastRecv, now);
    z.(trace := z.trace.(
         applied := if f.outcome.Applied? then z.trace.applied + {p.seqNum} else z.trace.applied,
         received := (if restarted then {} else z.trace.received) + {p.seqNum},
         lossStart := CountingFrom(z.trace.lossStart, y.client.expectedServer, restarted, p.seqNum)))
  }

  function AfterStdin(y: Sys, buf: seq<byte>, now: Time): (r: Sys)
    requires Cli.ValidClient(y.client)
  {
    var o := Cli.FeedStdin(y.client, buf, now);
    var z := AfterClient(y, o.client, SentBy(o.actions), {}, now);
    z.(trace := z.trace.(stdin := z.trace.stdin + buf,
                         quit := z.trace.quit || Filter(y.client.escape, buf).Disconnected()))
  }

  function ResentPackets(unacked: map<nat, Cli.Pending>, which: set<nat>): (r: set<ClientPacket>) {
    set k | k in which && k in unacked :: unacked[k].packet
  }

  function AfterTick(y: Sys, incomplete: seq<Cli.Report>, now: Time): (r: Sys) {
    var k := Cli.Tick(y.client, incomplete, now);
    var sent := SentBy(k.before) + ResentPackets(k.client.unacked, k.resent) + SentBy(k.later);
    var z := AfterClient(y, k.client, sent, k.resent, now);
    z.(trace := z.trace.(lastTick := now))
  }

  function Next(y: Sys, step: Step): (z: Sys)
    requires ValidSys(y) && Enabled(y, step)
    ensures ValidSys(z)
  {
    var now := step.now;
    match step.event
    case ClientReceives(p) => AfterReceive(y, p, now)
    case ServerReceives(p, env) =>
      Srv.FeedValid(y.server, p, now, env);
      AfterServer(y, Srv.Feed(y.server, p, now, env), now, p.sessionId == 0 && Srv.ResetBy(y.server, now))
    case HandshakeArrives(p, env) =>
      Srv.FeedValid(y.server, p, now, env);
      AfterServer(y, Srv.Feed(y.server, p, now, env), now, Srv.ResetBy(y.server, now))
    case PtyOutput(count, screen) =>
      y.(server := Srv.PtyBytes(y.server, count, screen, now), clock := now)
    case ServerTick(echo) =>
      Srv.FinishValid(y.server, [], [], now, echo);
      AfterServer(y, Srv.Finish(y.server, [], [], now, echo), now, false)
    case ServerShutdown => AfterServer(y, Srv.PrepareShutdown(y.server), now, false)
    case Stdin(buf) => AfterStdin(y, buf, now)
    case Winch(cols, rows) =>
      var o := Cli.OnWinch(y.client, cols, rows, now);
      AfterClient(y, o.client, SentBy(o.actions), {}, now)
    case ClientTick(incomplete) =>
      Cli.TickValid(y.client, incomplete, now);
      AfterTick(y, incomplete, now)
  }

  // ----- runs -----

  /** The steps taken one after the other; `None` when one of them was not enabled. */
  function RunFrom(start: Sys, steps: seq<Step>): (y: Option<Sys>)
    requires ValidSys(start)
    ensures y.Some? ==> ValidSys(y.value)
  {
    if steps == [] then Some(start)
    else
      var before := RunFrom(start, steps[..|steps| - 1]);
      var last := steps[|steps| - 1];
      if before.Some? && Enabled(before.value, last) then Some(Next(before.value, last)) else None
  }

  function Run(g: Config, steps: seq<Step>): (y: Option<Sys>)
    requires ValidConfig(g)
    ensures y.Some? ==> ValidSys(y.value)
  {
    RunFrom(Init(g), steps)
  }

  lemma FedFits(y: Sys, p: ClientPacket, now: Time, env: Srv.Env)
    requires ValidSys(y) && Fits(env.resized)
    ensures Srv.FedOk(Srv.Feed(y.server, p, now, env))
  {
    hide Srv.Feed, Srv.FedOk;
    Srv.FeedValid(y.server, p, now, env);
  }

  // ----- session resets -----

  /** A handshake that the server does not ignore. */
  predicate Resets(y: Sys, step: Step) {
    step.event.HandshakeArrives? && Srv.ResetBy(y.server, step.now)
  }

  /** A reset, if there is one, carries the number the server acknowledges already. */
  predicate KeepsWindow(y: Sys, step: Step) {
    Resets(y, step) ==> step.event.handshake.seqNum == y.server.ackSeq
  }

  ghost predicate NoResets(start: Sys, steps: seq<Step>)
    requires ValidSys(start) && RunFrom(start, steps).Some?
    decreases |steps|
  {
    steps != [] ==>
      var before := steps[..|steps| - 1];
      NoResets(start, before) && !Resets(RunFrom(start, before).value, steps[|steps| - 1])
  }

  /** No reset of the run moves the window. */
  ghost predicate WindowKept(start: Sys, steps: seq<Step>)
    requires ValidSys(start) && RunFrom(start, steps).Some?
    decreases |steps|
  {
    steps != [] ==>
      var before := steps[..|steps| - 1];
      WindowKept(start, before) && KeepsWindow(RunFrom(start, before).value, steps[|steps| - 1])
  }

  lemma {:induction false} NoResetsKeepWindow(start: Sys, steps: seq<Step>)
    requires ValidSys(start) && RunFrom(start, steps).Some? && NoResets(start, steps)
    ensures WindowKept(start, steps)
    decreases |steps|
  {
    hide Enabled, Next, ValidSys;
    if steps != [] {
      NoResetsKeepWindow(start, steps[..|steps| - 1]);
    }
  }

  // ----- runs joined -----

  lemma {:induction false} RunFromJoin(y: Sys, a: seq<Step>, b: seq<Step>)
    requires ValidSys(y) && RunFrom(y, a).Some?
    ensures RunFrom(y, a + b) == RunFrom(RunFrom(y, a).value, b)
    decreases |b|
  {
    hide Enabled, Next, ValidSys;
    if b == [] {
      assert a + b == a;
    } else {
      assert (a + b)[..|a + b| - 1] == a + b[..|b| - 1];
      RunFromJoin(y, a, b[..|b| - 1]);
    }
  }

  lemma {:induction false} WindowKeptJoin(y: Sys, a: seq<Step>, b: seq<Step>)
    requires ValidSys(y) && RunFrom(y, a).Some? && RunFrom(RunFrom(y, a).value, b).Some?
    ensures RunFrom(y, a + b).Some?
    ensures WindowKept(y, a + b) <==> WindowKept(y, a) && WindowKept(RunFrom(y, a).value, b)
    decreases |b|
  {
    hide Enabled, Next, ValidSys, KeepsWindow;
    RunFromJoin(y, a, b);
    if b == [] {
      assert a + b == a;
    } else {
      assert (a + b)[..|a + b| - 1] == a + b[..|b| - 1];
      RunFromJoin(y, a, b[..|b| - 1]);
      WindowKeptJoin(y, a, b[..|b| - 1]);
    }
  }

  lemma {:induction false} NoResetsJoin(y: Sys, a: seq<Step>, b: seq<Step>)
    requires ValidSys(y) && RunFrom(y, a).Some? && RunFrom(RunFrom(y, a).value, b).Some?
    requires NoResets(y, a) && NoResets(RunFrom(y, a).value, b)
    ensures RunFrom(y, a + b).Some? && NoResets(y, a + b)
    decreases |b|
  {
    hide Enabled, Next, ValidSys, Resets;
    RunFromJoin(y, a, b);
    if b == [] {
      assert a + b == a;
    } else {
      assert (a + b)[..|a + b| - 1] == a + b[..|b| - 1];
      RunFromJoin(y, a, b[..|b| - 1]);
      NoResetsJoin(y, a, b[..|b| - 1]);
    }
  }

  lemma RunOne(y: Sys, step: Step)
    requires ValidSys(y) && Enabled(y, step)
    ensures RunFrom(y, [step]) == Some(Next(y, step))
    ensures NoResets(y, [step]) <==> !Resets(y, step)
    ensures WindowKept(y, [step]) <==> KeepsWindow(y, step)
  {
    hide Enabled, Next, ValidSys, Resets, KeepsWindow;
    assert [step][..0] == [];
  }

  lemma InitValid(g: Config)
    requires ValidConfig(g)
    ensures ValidSys(Init(g))
  {
  }
}

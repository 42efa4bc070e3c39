/**
 * What the reliable input channel promises: on every run for the present stretch, and for the whole run while
 * the window is kept.
 */
module Delivery {
  import opened Base
  import opened TerminalGrid
  import opened Protocol
  import opened Network
  import opened ClientWire
  import opened InputChannel
  import opened InputRuns
  import EscapeFilter
  import Srv = ServerSession
  import Cli = ClientSession

  /** The promise of the input channel: in order, once each, nothing else written, and acknowledged exactly. */
  predicate InOrder(y: Sys, e: Stretch) {
    && FromLog(y.trace.processed, y.trace.log) && e.skip <= |y.trace.processed|
    && Delivered(y.trace.processed[e.skip..], y.trace.log, e.start, y.server.expected)
    && y.server.ackSeq == y.server.expected - 1
    && y.server.pty == PtyOps(y.trace.processed)
    && BufferOk(y.server.outOfOrder, y.trace.log, y.server.expected)
    && |y.trace.log| == y.client.seqNum
  }

  /** The promise holds all along the run. */
  ghost predicate AlwaysInOrder(y: Sys, steps: seq<Step>, e: Stretch)
    requires ValidSys(y) && RunFrom(y, steps).Some?
    decreases |steps|
  {
    InOrder(RunFrom(y, steps).value, e) && (steps != [] ==> AlwaysInOrder(y, steps[..|steps| - 1], e))
  }

  lemma InvInOrder(y: Sys, e: Stretch)
    requires InputInv(y, e)
    ensures InOrder(y, e)
  {
    hide Delivered, BufferOk, PtyOps, Waiting, AllFromClient, AllSent, AcksUpTo;
  }

  /**
   * Exactly once, in order, on every run: whatever was lost, duplicated, reordered or reset, the server
   * has processed, since the last reset that moved the window, the payloads numbered from that reset's
   * number (from clientStart while there was none) up to just below `expected`, acknowledges exactly
   * up to there, and holds later payloads under their own numbers. Everything it ever processed is a
   * payload the client numbered, and the PTY was given that and nothing else.
   */
  lemma ExactlyOnceInOrder(g: Config, steps: seq<Step>)
    requires ValidConfig(g) && Run(g, steps).Some?
    ensures InOrder(Run(g, steps).value, PresentStretch(g, steps))
    ensures WindowKept(Init(g), steps) ==> PresentStretch(g, steps) == FirstStretch(g)
  {
    hide Run, WindowKept, InOrder, PresentStretch;
    RunIn(g, steps);
    InvInOrder(Run(g, steps).value, PresentStretch(g, steps));
  }

  lemma {:induction false} AlwaysInOrderIff(y: Sys, steps: seq<Step>, e: Stretch)
    requires ValidSys(y) && InputInv(y, e) && RunFrom(y, steps).Some?
    ensures AlwaysInOrder(y, steps, e) <==> WindowKept(y, steps)
    ensures WindowKept(y, steps) ==> InputInv(RunFrom(y, steps).value, e)
    decreases |steps|
  {
    hide InputInv, InOrder, Enabled, Next, ValidSys, KeepsWindow;
    if steps == [] {
      InvInOrder(y, e);
    } else {
      var before, last := steps[..|steps| - 1], steps[|steps| - 1];
      AlwaysInOrderIff(y, before, e);
      if WindowKept(y, before) {
        StepInOrderIff(RunFrom(y, before).value, last, e);
      }
    }
  }

  lemma StepInOrderIff(y: Sys, step: Step, e: Stretch)
    requires ValidSys(y) && Enabled(y, step) && InputInv(y, e)
    ensures InOrder(Next(y, step), e) <==> KeepsWindow(y, step)
    ensures KeepsWindow(y, step) ==> InputInv(Next(y, step), e)
  {
    hide InputInv, Next, Delivered, BufferOk, PtyOps;
    if KeepsWindow(y, step) {
      StepIn(y, step, e);
      InvInOrder(Next(y, step), e);
    } else {
      HandshakeStepIn(y, step, e);
    }
  }

  /** The promise is kept all along a run if and only if every reset of it carries the current acknowledgement. */
  lemma InOrderExactlyWhileWindowKept(g: Config, steps: seq<Step>)
    requires ValidConfig(g) && Run(g, steps).Some?
    ensures AlwaysInOrder(Init(g), steps, FirstStretch(g)) <==> WindowKept(Init(g), steps)
  {
    hide InputInv, RunFrom, WindowKept, AlwaysInOrder;
    StartsIn(g);
    AlwaysInOrderIff(Init(g), steps, FirstStretch(g));
  }

  /** Every payload from `expected` on still waits at the client, under its own number. */
  predicate StillWaiting(unacked: map<nat, Cli.Pending>, log: seq<ClientPayload>, expected: nat) {
    forall n: nat | 1 <= expected <= n <= |log| ::
      n in unacked && unacked[n].packet.seqNum == n && unacked[n].packet.payload == log[n - 1]
  }

  /** No server packet acknowledges anything unprocessed, so nothing unprocessed is forgotten. */
  lemma NothingForgottenEarly(g: Config, steps: seq<Step>)
    requires ValidConfig(g) && Run(g, steps).Some? && WindowKept(Init(g), steps)
    ensures var y := Run(g, steps).value;
            && (forall p | p in y.toClient :: p.ack < y.server.expected)
            && StillWaiting(y.client.unacked, y.trace.log, y.server.expected)
  {
    hide Run, WindowKept;
    RunIn(g, steps);
    WaitingStays(Run(g, steps).value, FirstStretch(g));
  }

  lemma WaitingStays(y: Sys, e: Stretch)
    requires InputInv(y, e) && e.first
    ensures (forall p | p in y.toClient :: p.ack < y.server.expected)
    ensures StillWaiting(y.client.unacked, y.trace.log, y.server.expected)
  {
    hide BufferOk, PtyOps, AllFromClient, LogOk;
    assert CoreOf(y.client).unacked == y.client.unacked;
  }

  /** In any state of the server, an Ack or NACK never moves the stream. */
  lemma TransientMovesNothing(s: Srv.Server, p: ClientPacket, now: Time, env: Srv.Env)
    requires p.sessionId != 0 && Srv.IsTransient(p)
    ensures var f := Srv.Feed(s, p, now, env);
            && f.items == [] && f.server.expected == s.expected && f.server.outOfOrder == s.outOfOrder
            && f.server.ackSeq == s.ackSeq && f.server.pty == s.pty
  {
    hide Srv.CheckSync;
    var s1 := s.(lastRecv := now);
    SyncChangesLittle(if p.ack > s1.clientAck then s1.(clientAck := p.ack) else s1, now, env.echo);
  }

  // ----- catching up -----

  /** The server never loses ground, and holds every reliable packet it received. */
  ghost predicate Progress(s: Srv.Server, t: Srv.Server, steps: seq<Step>) {
    && s.expected <= t.expected
    && (forall n | Kept(s, n) :: Kept(t, n))
    && (forall k | 0 <= k < |steps| :: ReceivesReliable(steps[k]) ==> Kept(t, steps[k].event.clientPacket.seqNum))
  }

  predicate ReceivesReliable(step: Step) {
    step.event.ServerReceives? && step.event.clientPacket.seqNum < TRANSIENT_BIT
  }

  lemma StepProgress(y: Sys, step: Step, e: Stretch)
    requires ValidSys(y) && Enabled(y, step) && InputInv(y, e) && !Resets(y, step)
    ensures Progress(y.server, Next(y, step).server, [step])
  {
    hide AfterServer, InputInv, Resets, Srv.Feed, Srv.Finish, Fits, Cli.Feed, Cli.FeedStdin, Cli.OnWinch, Cli.Tick,
         FedIn;
    match step.event {
      case ServerReceives(p, env) =>
        ServerReceivesIn(y, p, step.now, env, e);
        FedProgress(y, Srv.Feed(y.server, p, step.now, env), step.now, e);
      case ServerTick(echo) =>
        FinishStepIn(y, step.now, echo, e);
        FedProgress(y, Srv.Finish(y.server, [], [], step.now, echo), step.now, e);
      case ServerShutdown =>
        ShutdownIn(y, e);
        FedProgress(y, Srv.PrepareShutdown(y.server), step.now, e);
      case HandshakeArrives(_, _) => HandshakeStepIn(y, step, e);
      case _ =>
    }
  }

  lemma FedProgress(y: Sys, f: Srv.Fed, now: Time, e: Stretch)
    requires InputInv(y, e) && FedIn(y.server, f, y.trace.log, y.trace.processed[e.skip..], e.start)
    ensures Progress(y.server, AfterServer(y, f, now, false).server, [])
            && AfterServer(y, f, now, false).server == f.server
  {
  }

  lemma ProgressJoin(s: Srv.Server, t: Srv.Server, u: Srv.Server, before: seq<Step>, last: Step)
    requires Progress(s, t, before) && Progress(t, u, [last])
    ensures Progress(s, u, before + [last])
  {
    assert [last][0] == last;
  }

  lemma {:induction false} RunProgress(y: Sys, steps: seq<Step>, e: Stretch)
    requires ValidSys(y) && InputInv(y, e) && RunFrom(y, steps).Some? && NoResets(y, steps)
    ensures Progress(y.server, RunFrom(y, steps).value.server, steps)
    decreases |steps|
  {
    hide InputInv, Enabled, Next, ValidSys, Progress, Resets;
    if steps == [] {
      assert Progress(y.server, y.server, []) by { NoProgress(y.server); }
    } else {
      var before, last := steps[..|steps| - 1], steps[|steps| - 1];
      RunProgress(y, before, e);
      NoResetsKeepWindow(y, before);
      KeptRunIn(y, before, e);
      StepProgress(RunFrom(y, before).value, last, e);
      ProgressJoin(y.server, RunFrom(y, before).value.server, RunFrom(y, steps).value.server, before, last);
      assert before + [last] == steps;
    }
  }

  lemma NoProgress(s: Srv.Server)
    ensures Progress(s, s, [])
  {
  }

  /** The packet numbered `n` reaches the server at some step. */
  ghost predicate Reaches(steps: seq<Step>, n: nat) {
    exists k :: 0 <= k < |steps| && steps[k].event.ServerReceives? && steps[k].event.clientPacket.seqNum == n
  }

  /**
   * Any-order catch-up: once every unprocessed packet has reached the server, in any order, with any
   * duplicates and with anything but a reset going on in between, all of them are processed; and when
   * the client numbered nothing new meanwhile, the whole log is, and the buffer is empty.
   */
  lemma CatchesUp(g: Config, steps: seq<Step>, more: seq<Step>)
    requires ValidConfig(g) && Run(g, steps).Some?
    requires RunFrom(Run(g, steps).value, more).Some? && NoResets(Run(g, steps).value, more)
    requires var y := Run(g, steps).value;
             forall n: nat | y.server.expected <= n <= y.client.seqNum :: Reaches(more, n)
    ensures var y, z, e := Run(g, steps).value, RunFrom(Run(g, steps).value, more).value, PresentStretch(g, steps);
            && z.server.expected > y.client.seqNum && e.skip <= |z.trace.processed|
            && (z.client.seqNum == y.client.seqNum ==>
                  && z.server.expected == Max(y.server.expected, y.client.seqNum + 1)
                  && z.server.outOfOrder == map[]
                  && Delivered(z.trace.processed[e.skip..], z.trace.log, e.start, Max(e.start, |z.trace.log|) + 1))
  {
    hide Run, RunFrom, PtyOps, WindowKept, NoResets, PresentStretch, StretchOf;
    RunIn(g, steps);
    var y, z, e := Run(g, steps).value, RunFrom(Run(g, steps).value, more).value, PresentStretch(g, steps);
    RunProgress(y, more, e);
    NoResetsKeepWindow(y, more);
    KeptRunIn(y, more, e);
    if z.server.expected <= y.client.seqNum {
      StuckImpossible(y, z, more, e);
    }
  }

  lemma StuckImpossible(y: Sys, z: Sys, more: seq<Step>, e: Stretch)
    requires InputInv(y, e) && InputInv(z, e) && Progress(y.server, z.server, more)
    requires forall n: nat | y.server.expected <= n <= y.client.seqNum :: Reaches(more, n)
    ensures z.server.expected > y.client.seqNum
  {
    if z.server.expected <= y.client.seqNum {
      assert Reaches(more, z.server.expected);
      var k :| 0 <= k < |more| && more[k].event.ServerReceives?
          && more[k].event.clientPacket.seqNum == z.server.expected;
      assert ReceivesReliable(more[k]);
    }
  }

  // ----- keystrokes end to end -----

  function KeysOf(p: ClientPayload): (r: seq<byte>) {
    if p.Keystrokes? then p.keys else []
  }

  function Keys(log: seq<ClientPayload>): (r: seq<byte>) {
    if log == [] then [] else Keys(log[..|log| - 1]) + KeysOf(log[|log| - 1])
  }

  function WrittenBy(op: Srv.PtyOp): (r: seq<byte>) {
    if op.Wrote? then op.bytes else []
  }

  /** The keystroke bytes the PTY was given. */
  function Written(ops: seq<Srv.PtyOp>): (r: seq<byte>) {
    if ops == [] then [] else Written(ops[..|ops| - 1]) + WrittenBy(ops[|ops| - 1])
  }

  lemma {:induction false} KeysJoin(a: seq<ClientPayload>, b: seq<ClientPayload>)
    ensures Keys(a + b) == Keys(a) + Keys(b)
    decreases |b|
  {
    if b == [] {
      assert a + b == a;
    } else {
      KeysJoin(a, b[..|b| - 1]);
      hide KeysOf;
      assert (a + b)[..|a + b| - 1] == a + b[..|b| - 1];
      assert (a + b)[|a + b| - 1] == b[|b| - 1];
    }
  }

  lemma {:induction false} WrittenIsKeys(processed: seq<Srv.Item>, log: seq<ClientPayload>)
    requires |processed| == |log| && forall i | 0 <= i < |log| :: processed[i].payload == log[i]
    ensures Written(PtyOps(processed)) == Keys(log)
    decreases |log|
  {
    if log != [] {
      var before, ops := processed[..|log| - 1], PtyOps(processed[..|log| - 1]);
      WrittenIsKeys(before, log[..|log| - 1]);
      var op := PtyOf(processed[|log| - 1]);
      if op == [] {
        assert ops + op == ops;
      } else {
        assert (ops + op)[..|ops + op| - 1] == ops;
      }
    }
  }

  /** Until a disconnect is typed, the numbered keystrokes are the filtered stdin, and the filter's state is kept. */
  predicate KeysOk(y: Sys) {
    var f := EscapeFilter.Filter(EscapeFilter.START, y.trace.stdin);
    !y.trace.quit ==> !f.Disconnected() && f.sent == Keys(y.trace.log) && f.state == y.client.escape
  }

  lemma OneMore(log: seq<ClientPayload>, p: ClientPayload)
    ensures Keys(log + [p]) == Keys(log) + KeysOf(p)
  {
    assert (log + [p])[..|log|] == log;
  }

  lemma NumberedReliable(c: Cli.Client, c': Cli.Client, sent: set<ClientPacket>, payload: ClientPayload, now: Time)
    requires SendsReliable(c, c', sent, payload, now)
    ensures Numbered(c, c') == [payload]
  {
    assert CoreOf(c').unacked == c'.unacked && c'.seqNum == CoreOf(c').seqNum;
  }

  lemma StdinKeys(y: Sys, buf: seq<byte>, now: Time)
    requires ValidSys(y) && KeysOk(y)
    ensures KeysOk(AfterStdin(y, buf, now))
  {
    hide Cli.FeedStdin, EscapeFilter.Filter, Keys, Numbered, SendsReliable, SendTimesAfter;
    var o := Cli.FeedStdin(y.client, buf, now);
    var f := EscapeFilter.Filter(y.client.escape, buf);
    StdinWire(y.client, buf, now);
    if !y.trace.quit && !f.Disconnected() {
      EscapeFilter.FilterAppend(EscapeFilter.START, y.trace.stdin, buf);
      if f.sent == [] {
        SameCore(y.client, o.client);
        NumberedNothing(y.client, o.client);
        assert y.trace.log + [] == y.trace.log;
        assert Keys(y.trace.log) + [] == Keys(y.trace.log);
      } else {
        NumberedReliable(y.client, o.client, SentBy(o.actions), Keystrokes(f.sent), now);
        OneMore(y.trace.log, Keystrokes(f.sent));
      }
    }
  }

  lemma WinchKeys(y: Sys, cols: u16, rows: u16, now: Time)
    requires ValidSys(y) && KeysOk(y)
    ensures var o := Cli.OnWinch(y.client, cols, rows, now);
            KeysOk(AfterClient(y, o.client, SentBy(o.actions), {}, now))
  {
    hide Cli.OnWinch, EscapeFilter.Filter, Keys, Numbered, SendsReliable, SendTimesAfter;
    var o := Cli.OnWinch(y.client, cols, rows, now);
    WinchWire(y.client, cols, rows, now);
    NumberedReliable(y.client, o.client, SentBy(o.actions), Resize(cols, rows), now);
    OneMore(y.trace.log, Resize(cols, rows));
    assert Keys(y.trace.log) + [] == Keys(y.trace.log);
  }

  lemma ReceiveKeys(y: Sys, p: ServerPacket, now: Time)
    requires ValidSys(y) && KeysOk(y)
    ensures KeysOk(AfterReceive(y, p, now))
  {
    hide Cli.Feed, EscapeFilter.Filter, Keys, Numbered, SendTimesAfter;
    var f := Cli.Feed(y.client, p, now);
    if !f.outcome.Panicked? {
      ReceiveWire(y.client, p, now);
      NumberedNothing(y.client, f.client);
      assert y.trace.log + [] == y.trace.log;
    }
  }

  lemma TickEscape(c: Cli.Client, incomplete: seq<Cli.Report>, now: Time)
    ensures Cli.Tick(c, incomplete, now).client.escape == c.escape
  {
    hide Cli.Tick, Cli.MarkSent, Cli.Overdue;
    Cli.TickChangesLittle(c, incomplete, now);
  }

  lemma TickKeys(y: Sys, incomplete: seq<Cli.Report>, now: Time)
    requires ValidSys(y) && KeysOk(y)
    ensures KeysOk(AfterTick(y, incomplete, now))
  {
    hide Cli.Tick, Cli.TickKeepalive, Cli.TickArq, EscapeFilter.Filter, Keys, Numbered, SendsReliable, SendTimesAfter;
    var k := Cli.Tick(y.client, incomplete, now);
    var t := Cli.TickKeepalive(y.client, now).client;
    TickWire(y.client, incomplete, now);
    TickEscape(y.client, incomplete, now);
    TickNumbers(y.client, t, k.client, now);
    if SendsReliable(y.client, t, SentBy(k.before), KeepAlive, now) {
      NumberedReliable(y.client, t, SentBy(k.before), KeepAlive, now);
      OneMore(y.trace.log, KeepAlive);
      assert Keys(y.trace.log) + [] == Keys(y.trace.log);
    } else {
      SameCore(y.client, t);
      NumberedNothing(y.client, t);
      assert y.trace.log + [] == y.trace.log;
    }
  }

  lemma StepKeys(y: Sys, step: Step)
    requires ValidSys(y) && Enabled(y, step) && KeysOk(y)
    ensures KeysOk(Next(y, step))
  {
    hide KeysOk, AfterClient, AfterReceive, AfterStdin, AfterTick, Srv.Feed, Srv.Finish, Cli.OnWinch, Fits;
    match step.event {
      case ClientReceives(p) => ReceiveKeys(y, p, step.now);
      case Stdin(buf) => StdinKeys(y, buf, step.now);
      case Winch(cols, rows) => WinchKeys(y, cols, rows, step.now);
      case ClientTick(incomplete) => TickKeys(y, incomplete, step.now);
      case _ => KeysUnchanged(y, Next(y, step));
    }
  }

  lemma KeysUnchanged(y: Sys, z: Sys)
    requires KeysOk(y) && z.client == y.client && z.trace.log == y.trace.log && z.trace.stdin == y.trace.stdin
    requires z.trace.quit == y.trace.quit
    ensures KeysOk(z)
  {
  }

  lemma {:induction false} RunKeys(g: Config, steps: seq<Step>)
    requires ValidConfig(g) && Run(g, steps).Some?
    ensures KeysOk(Run(g, steps).value)
    decreases |steps|
  {
    hide Enabled, Next, ValidSys;
    if steps != [] {
      hide KeysOk;
      RunKeys(g, steps[..|steps| - 1]);
      StepKeys(Run(g, steps[..|steps| - 1]).value, steps[|steps| - 1]);
    }
  }

  /** The log up to number `start`, which this server session never asks for. */
  function Skipped(log: seq<ClientPayload>, start: nat): (r: seq<ClientPayload>) {
    log[..Min(start, |log|)]
  }

  /** The log from number `expected` on, which the server has not processed. */
  function Unprocessed(log: seq<ClientPayload>, start: nat, expected: nat): (r: seq<ClientPayload>)
    requires start + 1 <= expected <= Max(start, |log|) + 1
  {
    log[Min(expected - 1, |log|)..]
  }

  /**
   * Keystrokes end to end: until a disconnect is typed, the bytes the PTY got are, at packet boundaries,
   * the filtered stdin without what was numbered up to clientStart and what is not processed yet.
   */
  lemma KeystrokesReachThePty(g: Config, steps: seq<Step>)
    requires ValidConfig(g) && Run(g, steps).Some? && WindowKept(Init(g), steps) && !Run(g, steps).value.trace.quit
    ensures var y := Run(g, steps).value;
            && g.clientStart + 1 <= y.server.expected <= Max(g.clientStart, |y.trace.log|) + 1
            && EscapeFilter.Filter(EscapeFilter.START, y.trace.stdin).sent
               == Keys(Skipped(y.trace.log, g.clientStart)) + Written(y.server.pty)
                  + Keys(Unprocessed(y.trace.log, g.clientStart, y.server.expected))
  {
    hide Run, EscapeFilter.Filter, Keys, WindowKept, InputInv, PresentStretch, Skipped, Unprocessed;
    RunIn(g, steps);
    RunKeys(g, steps);
    StreamSplitsKeys(Run(g, steps).value, FirstStretch(g));
  }

  lemma KeysSplit(log: seq<ClientPayload>, a: nat, b: nat)
    requires a <= b <= |log|
    ensures Keys(log) == Keys(log[..a]) + Keys(log[a..b]) + Keys(log[b..])
  {
    KeysUpTo(log, b, |log|);
    KeysUpTo(log, a, b);
    assert log[..|log|] == log && log[b..|log|] == log[b..];
  }

  lemma KeysUpTo(log: seq<ClientPayload>, a: nat, b: nat)
    requires a <= b <= |log|
    ensures Keys(log[..b]) == Keys(log[..a]) + Keys(log[a..b])
  {
    hide Keys;
    assert log[..b] == log[..a] + log[a..b];
    KeysJoin(log[..a], log[a..b]);
  }

  /** In the first stretch the log's keystrokes are those skipped, those written, and those not processed yet. */
  lemma StreamSplitsKeys(y: Sys, e: Stretch)
    requires InputInv(y, e) && e.skip == 0
    ensures e.start + 1 <= y.server.expected <= Max(e.start, |y.trace.log|) + 1
    ensures Keys(y.trace.log) == Keys(Skipped(y.trace.log, e.start)) + Written(y.server.pty)
                                 + Keys(Unprocessed(y.trace.log, e.start, y.server.expected))
  {
    hide Keys, Written, PtyOps, BufferOk, FromLog, ClientIn;
    var log, a, b := y.trace.log, Min(e.start, |y.trace.log|), Min(y.server.expected - 1, |y.trace.log|);
    KeysSplit(log, a, b);
    assert y.trace.processed[0..] == y.trace.processed;
    WrittenIsKeys(y.trace.processed, log[a..b]);
  }

  /**
   * When no keystrokes were skipped (the program's first packet, a resize, is), the PTY has a prefix of
   * the filtered stdin, and the whole of it once all is processed.
   */
  lemma PtyHasPrefixOfStdin(g: Config, steps: seq<Step>)
    requires ValidConfig(g) && Run(g, steps).Some? && WindowKept(Init(g), steps) && !Run(g, steps).value.trace.quit
    requires Keys(Skipped(Run(g, steps).value.trace.log, g.clientStart)) == []
    ensures var y := Run(g, steps).value;
            var sent := EscapeFilter.Filter(EscapeFilter.START, y.trace.stdin).sent;
            && Written(y.server.pty) <= sent
            && (y.server.expected > y.client.seqNum ==> Written(y.server.pty) == sent)
  {
    hide Run, EscapeFilter.Filter, Written, WindowKept, Keys, Skipped, Unprocessed, PresentStretch, InOrder;
    var y := Run(g, steps).value;
    ExactlyOnceInOrder(g, steps);
    KeystrokesReachThePty(g, steps);
    PrefixOfThree(Keys(Skipped(y.trace.log, g.clientStart)), Written(y.server.pty),
                  Keys(Unprocessed(y.trace.log, g.clientStart, y.server.expected)));
    if y.server.expected > y.client.seqNum {
      LogIsNumbered(y, PresentStretch(g, steps));
      NothingUnprocessed(y.trace.log, g.clientStart, y.server.expected);
    }
  }

  lemma PrefixOfThree(a: seq<byte>, b: seq<byte>, c: seq<byte>)
    requires a == []
    ensures b <= a + b + c && (c == [] ==> b == a + b + c)
  {
  }

  lemma LogIsNumbered(y: Sys, e: Stretch)
    requires InOrder(y, e)
    ensures |y.trace.log| == y.client.seqNum
  {
  }

  lemma NothingUnprocessed(log: seq<ClientPayload>, start: nat, expected: nat)
    requires start + 1 <= expected <= Max(start, |log|) + 1 && expected > |log|
    ensures Keys(Unprocessed(log, start, expected)) == []
  {
  }
}

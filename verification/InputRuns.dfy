/**
 * The reliable input channel on every run. A reset that moves the window starts a new stretch of the
 * stream; the invariant describes the present stretch, and says more while it is the first one.
 */
module InputRuns {
  import opened Base
  import opened TerminalGrid
  import EscapeFilter
  import opened Protocol
  import opened Network
  import opened ClientWire
  import opened InputChannel
  import Srv = ServerSession
  import Cli = ClientSession

  /** What waits for an acknowledgement is the log under its own numbers, and nothing unprocessed is missing. */
  predicate Waiting(c: Core, log: seq<ClientPayload>, expected: nat) {
    && (forall k | k in c.unacked :: c.unacked[k].packet.seqNum == k && c.unacked[k].packet.sessionId == c.sessionId
                                     && Carries(c.unacked[k].packet, log))
    && (forall n: nat | 1 <= expected <= n <= |log| :: n in c.unacked)
  }

  predicate AllFromClient(packets: set<ClientPacket>, sessionId: nat, log: seq<ClientPayload>) {
    forall q | q in packets :: FromClient(q, sessionId, log)
  }

  predicate Sent(packets: set<ClientPacket>, n: nat) {
    exists q :: q in packets && q.seqNum == n
  }

  /** Every numbered packet was put on the wire. */
  predicate AllSent(packets: set<ClientPacket>, log: seq<ClientPayload>) {
    forall n: nat | 1 <= n <= |log| :: Sent(packets, n)
  }

  predicate ClientIn(c: Core, toServer: set<ClientPacket>, log: seq<ClientPayload>, expected: nat) {
    && LogOk(log) && c.seqNum == |log| && Waiting(c, log, expected)
    && AllFromClient(toServer, c.sessionId, log) && AllSent(toServer, log)
  }

  lemma SentGrows(a: set<ClientPacket>, b: set<ClientPacket>, log: seq<ClientPayload>)
    requires AllSent(a, log)
    ensures AllSent(a + b, log)
  {
    forall n: nat | 1 <= n <= |log| ensures Sent(a + b, n) {
      assert Sent(a, n);
      var q :| q in a && q.seqNum == n;
      assert q in a + b;
    }
  }

  /** A stretch between resets that move the window: what was processed before it, and the number it starts at. */
  datatype Stretch = Stretch(skip: nat, start: nat, first: bool)

  function FirstStretch(g: Config): (r: Stretch) {
    Stretch(0, g.clientStart, true)
  }

  /** The stretch after the step: a reset to another number than the acknowledged one starts a new one there. */
  function StretchAfter(y: Sys, step: Step, e: Stretch): (r: Stretch) {
    if KeepsWindow(y, step) then e else Stretch(|y.trace.processed|, step.event.handshake.seqNum, false)
  }

  /** The stretch a run ends in. */
  ghost function StretchOf(y: Sys, steps: seq<Step>, e: Stretch): (r: Stretch)
    requires ValidSys(y) && RunFrom(y, steps).Some?
    decreases |steps|
  {
    if steps == [] then e
    else
      var before := steps[..|steps| - 1];
      StretchAfter(RunFrom(y, before).value, steps[|steps| - 1], StretchOf(y, before, e))
  }

  ghost function PresentStretch(g: Config, steps: seq<Step>): (r: Stretch)
    requires ValidConfig(g) && Run(g, steps).Some?
  {
    StretchOf(Init(g), steps, FirstStretch(g))
  }

  /** From this number on the client has forgotten nothing; 0, and no promise, once a reset moved the window. */
  function Remembered(y: Sys, e: Stretch): (r: nat) {
    if e.first then y.server.expected else 0
  }

  /** Everything ever processed is a payload the client numbered, under its own number. */
  predicate FromLog(processed: seq<Srv.Item>, log: seq<ClientPayload>) {
    forall i | i in processed :: 1 <= i.seqNum <= |log| && i.payload == log[i.seqNum - 1]
  }

  predicate InputInv(y: Sys, e: Stretch) {
    && y.server.sessionId == y.client.sessionId != 0
    && FromLog(y.trace.processed, y.trace.log)
    && e.skip <= |y.trace.processed|
    && ServerIn(y.server, y.trace.log, y.trace.processed[e.skip..], e.start)
    && y.server.pty == PtyOps(y.trace.processed)
    && ClientIn(CoreOf(y.client), y.toServer, y.trace.log, Remembered(y, e))
    && (e.first ==> e.skip == 0 && AcksUpTo(y.toClient, y.server.ackSeq))
  }

  // ----- the log grows -----

  lemma FromLogGrows(processed: seq<Srv.Item>, log: seq<ClientPayload>, p: ClientPayload)
    requires FromLog(processed, log)
    ensures FromLog(processed, log + [p])
  {
  }

  /** What a stretch goes on with is carried by the log, too. */
  lemma FromLogMore(processed: seq<Srv.Item>, before: seq<Srv.Item>, items: seq<Srv.Item>, log: seq<ClientPayload>,
                    start: nat, expected: nat)
    requires FromLog(processed, log) && Delivered(before + items, log, start, expected)
    ensures FromLog(processed + items, log)
  {
    forall i | i in items ensures 1 <= i.seqNum <= |log| && i.payload == log[i.seqNum - 1] {
      var k :| 0 <= k < |items| && items[k] == i;
      assert (before + items)[|before| + k] == i;
    }
  }

  lemma ServerInGrows(s: Srv.Server, log: seq<ClientPayload>, processed: seq<Srv.Item>, start: nat, p: ClientPayload)
    requires ServerIn(s, log, processed, start)
    ensures ServerIn(s, log + [p], processed, start)
  {
  }

  /** A new reliable packet joins the log, the waiting packets and the wire. */
  lemma ReliableIn(c: Cli.Client, c': Cli.Client, sent: set<ClientPacket>, payload: ClientPayload, now: Time,
                   toServer: set<ClientPacket>, log: seq<ClientPayload>, expected: nat)
    requires SendsReliable(c, c', sent, payload, now) && Reliable(payload) && c.seqNum + 1 < TRANSIENT_BIT
    requires ClientIn(CoreOf(c), toServer, log, expected)
    ensures ClientIn(CoreOf(c'), toServer + sent, log + [payload], expected)
    ensures Numbered(c, c') == [payload]
  {
    var p := Cli.PrepareReliable(c, payload, now);
    assert FromClient(p.packet, c.sessionId, log + [payload]);
    assert CoreOf(c').unacked == c.unacked[c.seqNum + 1 := Cli.Pending(p.packet, now)];
    assert c'.seqNum == CoreOf(c').seqNum;
    SentGrows(toServer, sent, log);
    assert p.packet in toServer + sent && p.packet.seqNum == |log| + 1;
    assert Sent(toServer + sent, |log| + 1);
  }

  lemma TransientSent(c: Cli.Client, core: Core, sent: set<ClientPacket>, toServer: set<ClientPacket>,
                    log: seq<ClientPayload>, expected: nat)
    requires AllTransient(sent, c) && core.sessionId == c.sessionId && ClientIn(core, toServer, log, expected)
    ensures ClientIn(core, toServer + sent, log, expected)
  {
    hide Sent;
    SentGrows(toServer, sent, log);
  }

  lemma ArqIn(c: Cli.Client, d: Cli.Client, which: set<nat>, toServer: set<ClientPacket>, log: seq<ClientPayload>,
              expected: nat, now: Time)
    requires ClientIn(CoreOf(c), toServer, log, expected) && CoreOf(d) == CoreOf(Cli.TickArq(c, now))
    ensures ClientIn(CoreOf(d), toServer + ResentPackets(d.unacked, which), log, expected)
  {
    hide Cli.Overdue, Sent;
    assert CoreOf(d).unacked == d.unacked;
    SentGrows(toServer, ResentPackets(d.unacked, which), log);
  }

  // ----- steps -----

  lemma NumberedNothing(c: Cli.Client, c': Cli.Client)
    requires c'.seqNum == c.seqNum
    ensures Numbered(c, c') == []
  {
  }

  /** A client step with the packets it sent and the payloads it numbered. */
  lemma ClientStepIn(y: Sys, z: Sys, sent: set<ClientPacket>, numbered: seq<ClientPayload>, e: Stretch)
    requires InputInv(y, e) && |numbered| <= 1
    requires z.server == y.server && z.toClient == y.toClient && z.trace.processed == y.trace.processed
    requires z.trace.log == y.trace.log + numbered && z.toServer == y.toServer + sent
    requires z.client.sessionId == y.client.sessionId
    requires ClientIn(CoreOf(z.client), y.toServer + sent, y.trace.log + numbered, Remembered(y, e))
    ensures InputInv(z, e)
  {
    hide ServerIn, ClientIn, AcksUpTo, FromLog;
    if |numbered| == 1 {
      ServerInGrows(y.server, y.trace.log, y.trace.processed[e.skip..], e.start, numbered[0]);
      FromLogGrows(y.trace.processed, y.trace.log, numbered[0]);
      assert numbered == [numbered[0]];
    } else {
      assert y.trace.log + numbered == y.trace.log;
    }
  }

  lemma InvClient(y: Sys, e: Stretch)
    requires InputInv(y, e)
    ensures ClientIn(CoreOf(y.client), y.toServer, y.trace.log, Remembered(y, e))
    ensures y.toServer + {} == y.toServer && y.trace.log + [] == y.trace.log
  {
  }

  lemma SameCore(c: Cli.Client, d: Cli.Client)
    requires CoreOf(c) == CoreOf(d)
    ensures c.sessionId == d.sessionId && c.seqNum == d.seqNum && c.unacked == d.unacked && c.ackSeq == d.ackSeq
  {
  }

  lemma ReliableSession(c: Cli.Client, c': Cli.Client, sent: set<ClientPacket>, payload: ClientPayload, now: Time)
    requires SendsReliable(c, c', sent, payload, now)
    ensures c'.sessionId == c.sessionId && c'.seqNum == c.seqNum + 1
  {
  }

  /** Any entry point that either sends nothing or numbers one reliable packet. */
  lemma SendStepIn(y: Sys, z: Sys, c': Cli.Client, sent: set<ClientPacket>, payload: ClientPayload, now: Time,
                   e: Stretch)
    requires InputInv(y, e) && Reliable(payload) && y.client.seqNum + 1 < TRANSIENT_BIT
    requires SendsNothing(y.client, c', sent) || SendsReliable(y.client, c', sent, payload, now)
    requires z.client == c' && z.server == y.server && z.toClient == y.toClient
             && z.trace.processed == y.trace.processed
    requires z.trace.log == y.trace.log + Numbered(y.client, c') && z.toServer == y.toServer + sent
    ensures InputInv(z, e)
  {
    hide InputInv, ClientIn, Numbered, SendsReliable;
    InvClient(y, e);
    if SendsReliable(y.client, c', sent, payload, now) {
      ReliableSession(y.client, c', sent, payload, now);
      ReliableIn(y.client, c', sent, payload, now, y.toServer, y.trace.log, Remembered(y, e));
    } else {
      SameCore(y.client, c');
      NumberedNothing(y.client, c');
    }
    ClientStepIn(y, z, sent, Numbered(y.client, c'), e);
  }

  lemma StdinIn(y: Sys, buf: seq<byte>, now: Time, e: Stretch)
    requires ValidSys(y) && InputInv(y, e) && y.client.seqNum + 1 < TRANSIENT_BIT
    ensures InputInv(AfterStdin(y, buf, now), e)
  {
    hide InputInv, Cli.FeedStdin, EscapeFilter.Filter, Numbered, SendsReliable, SendsNothing, SendTimesAfter;
    StdinWire(y.client, buf, now);
    var o := Cli.FeedStdin(y.client, buf, now);
    SendStepIn(y, AfterStdin(y, buf, now), o.client, SentBy(o.actions),
               Keystrokes(EscapeFilter.Filter(y.client.escape, buf).sent), now, e);
  }

  lemma WinchIn(y: Sys, cols: u16, rows: u16, now: Time, e: Stretch)
    requires ValidSys(y) && InputInv(y, e) && y.client.seqNum + 1 < TRANSIENT_BIT
    ensures var o := Cli.OnWinch(y.client, cols, rows, now);
            InputInv(AfterClient(y, o.client, SentBy(o.actions), {}, now), e)
  {
    hide InputInv, Cli.OnWinch, Numbered, SendsReliable, SendsNothing, SendTimesAfter;
    WinchWire(y.client, cols, rows, now);
    var o := Cli.OnWinch(y.client, cols, rows, now);
    SendStepIn(y, AfterClient(y, o.client, SentBy(o.actions), {}, now), o.client, SentBy(o.actions),
               Resize(cols, rows), now, e);
  }

  lemma ClockIn(y: Sys, now: Time, e: Stretch)
    requires InputInv(y, e)
    ensures InputInv(y.(clock := now), e)
  {
    hide ServerIn, ClientIn, PtyOps, AcksUpTo;
  }

  lemma ReceiveIn(y: Sys, p: ServerPacket, now: Time, e: Stretch)
    requires ValidSys(y) && InputInv(y, e) && p in y.toClient
    ensures InputInv(AfterReceive(y, p, now), e)
  {
    hide InputInv, Cli.Feed, AfterFed;
    if Cli.Feed(y.client, p, now).outcome.Panicked? {
      ClockIn(y, now, e);
    } else {
      FedClientIn(y, p, now, e);
    }
  }

  lemma FedClientIn(y: Sys, p: ServerPacket, now: Time, e: Stretch)
    requires ValidSys(y) && InputInv(y, e) && p in y.toClient
    ensures InputInv(AfterFed(y, Cli.Feed(y.client, p, now), p, now), e)
  {
    hide InputInv, Cli.Feed, Numbered, ClientIn, SendTimesAfter;
    var f := Cli.Feed(y.client, p, now);
    InvClient(y, e);
    ReceiveWire(y.client, p, now);
    NumberedNothing(y.client, f.client);
    AcknowledgedIn(y, p, f.client, e);
    TransientSent(f.client, CoreOf(f.client), SentBy(f.actions), y.toServer, y.trace.log, Remembered(y, e));
    ClientStepIn(y, AfterFed(y, f, p, now), SentBy(f.actions), [], e);
  }

  /** An acknowledgement only ever removes processed packets. */
  lemma AcknowledgedIn(y: Sys, p: ServerPacket, c': Cli.Client, e: Stretch)
    requires InputInv(y, e) && p in y.toClient && c'.sessionId == y.client.sessionId && c'.seqNum == y.client.seqNum
    requires c'.unacked == Cli.Above(y.client.unacked, p.ack)
    ensures ClientIn(CoreOf(c'), y.toServer, y.trace.log, Remembered(y, e))
  {
    hide Delivered, BufferOk;
  }

  lemma TickIn(y: Sys, incomplete: seq<Cli.Report>, now: Time, e: Stretch)
    requires ValidSys(y) && InputInv(y, e) && y.client.seqNum + 1 < TRANSIENT_BIT
    ensures InputInv(AfterTick(y, incomplete, now), e)
  {
    hide InputInv, Cli.Tick, Cli.TickKeepalive, Cli.TickArq, ClientIn, SendsReliable, Numbered, SendTimesAfter;
    var k := Cli.Tick(y.client, incomplete, now);
    var t := Cli.TickKeepalive(y.client, now);
    InvClient(y, e);
    TickWire(y.client, incomplete, now);
    var log := y.trace.log + Numbered(y.client, k.client);
    TickNumbers(y.client, t.client, k.client, now);
    if SendsReliable(y.client, t.client, SentBy(k.before), KeepAlive, now) {
      ReliableIn(y.client, t.client, SentBy(k.before), KeepAlive, now, y.toServer, y.trace.log, Remembered(y, e));
      ReliableSession(y.client, t.client, SentBy(k.before), KeepAlive, now);
    } else {
      SameCore(y.client, t.client);
      NumberedNothing(y.client, t.client);
    }
    ArqIn(t.client, k.client, k.resent, y.toServer + SentBy(k.before), log, Remembered(y, e), now);
    TickTail(y, k, log, e);
    ClientStepIn(y, AfterTick(y, incomplete, now),
                 SentBy(k.before) + ResentPackets(k.client.unacked, k.resent) + SentBy(k.later),
                 Numbered(y.client, k.client), e);
  }

  lemma TickNumbers(c: Cli.Client, t: Cli.Client, d: Cli.Client, now: Time)
    requires CoreOf(d) == CoreOf(Cli.TickArq(t, now))
    ensures d.sessionId == t.sessionId && d.seqNum == t.seqNum && Numbered(c, d) == Numbered(c, t)
            && |Numbered(c, d)| <= 1
  {
    hide Cli.Overdue;
    assert CoreOf(d).unacked == d.unacked && CoreOf(d).seqNum == d.seqNum && CoreOf(d).sessionId == d.sessionId;
  }

  lemma TickTail(y: Sys, k: Cli.Ticked, log: seq<ClientPayload>, e: Stretch)
    requires k.client.sessionId == y.client.sessionId && AllTransient(SentBy(k.later), y.client)
    requires ClientIn(CoreOf(k.client), y.toServer + SentBy(k.before) + ResentPackets(k.client.unacked, k.resent), log,
                      Remembered(y, e))
    ensures ClientIn(CoreOf(k.client),
                     y.toServer + (SentBy(k.before) + ResentPackets(k.client.unacked, k.resent) + SentBy(k.later)),
                     log, Remembered(y, e))
  {
    hide ClientIn;
    var wire := y.toServer + SentBy(k.before) + ResentPackets(k.client.unacked, k.resent);
    TransientSent(y.client, CoreOf(k.client), SentBy(k.later), wire, log, Remembered(y, e));
    assert wire + SentBy(k.later)
        == y.toServer + (SentBy(k.before) + ResentPackets(k.client.unacked, k.resent) + SentBy(k.later));
  }

  /** A server entry point whose effect on the channel is known. */
  lemma ServerStepIn(y: Sys, f: Srv.Fed, now: Time, reset: bool, e: Stretch)
    requires InputInv(y, e) && FedStream(y.server, f, y.trace.log, y.trace.processed[e.skip..], e.start)
    ensures InputInv(AfterServer(y, f, now, reset), e)
  {
    hide Delivered, BufferOk, Srv.ValidServer, Srv.ValidJob, PtyOps, ClientIn, Srv.Fed.Actions, FromLog;
    FromLogMore(y.trace.processed, y.trace.processed[e.skip..], f.items, y.trace.log, e.start, f.server.expected);
    PtyOpsJoin(y.trace.processed, f.items);
    assert (y.trace.processed + f.items)[e.skip..] == y.trace.processed[e.skip..] + f.items;
    var z := AfterServer(y, f, now, reset);
    AckBelowExpected(y.server, y.trace.log, y.trace.processed[e.skip..], e.start);
    AckBelowExpected(f.server, y.trace.log, y.trace.processed[e.skip..] + f.items, e.start);
    ForgetMore(CoreOf(y.client), y.toServer, y.trace.log, Remembered(y, e), Remembered(z, e));
    if e.first {
      AcksRise(y.toClient, Replied(f.replies) + JobPacket(f.job), y.server.ackSeq, f.server.ackSeq);
      assert z.toClient == y.toClient + (Replied(f.replies) + JobPacket(f.job));
    }
  }

  lemma AckBelowExpected(s: Srv.Server, log: seq<ClientPayload>, processed: seq<Srv.Item>, start: nat)
    requires ServerIn(s, log, processed, start)
    ensures 1 <= s.expected && s.ackSeq == s.expected - 1
  {
  }

  lemma ForgetMore(c: Core, toServer: set<ClientPacket>, log: seq<ClientPayload>, expected: nat, expected': nat)
    requires ClientIn(c, toServer, log, expected) && (expected' == 0 || 1 <= expected <= expected')
    ensures ClientIn(c, toServer, log, expected')
  {
    hide Sent, FromClient;
  }

  lemma AcksRise(a: set<ServerPacket>, b: set<ServerPacket>, ack: nat, ack': nat)
    requires AcksUpTo(a, ack) && AcksUpTo(b, ack') && ack <= ack'
    ensures AcksUpTo(a + b, ack')
  {
  }

  lemma ServerReceivesIn(y: Sys, p: ClientPacket, now: Time, env: Srv.Env, e: Stretch)
    requires ValidSys(y) && InputInv(y, e) && p in y.toServer && Fits(env.resized)
    ensures p.sessionId != 0 && FedIn(y.server, Srv.Feed(y.server, p, now, env), y.trace.log,
                                      y.trace.processed[e.skip..], e.start)
    ensures p.seqNum < TRANSIENT_BIT ==> Kept(Srv.Feed(y.server, p, now, env).server, p.seqNum)
  {
    hide Srv.Feed, ServerIn, FedIn, LogOk;
    FeedIn(y.server, p, now, env, y.trace.log, y.trace.processed[e.skip..], e.start);
  }

  lemma FinishStepIn(y: Sys, now: Time, echo: bool, e: Stretch)
    requires ValidSys(y) && InputInv(y, e)
    ensures FedIn(y.server, Srv.Finish(y.server, [], [], now, echo), y.trace.log, y.trace.processed[e.skip..], e.start)
  {
    hide Srv.Finish, FedIn, ServerIn;
    assert y.trace.processed[e.skip..] + [] == y.trace.processed[e.skip..] && y.server.pty + PtyOps([]) == y.server.pty;
    assert Replied([]) == {};
    FinishIn(y.server, y.server, [], [], now, echo, y.trace.log, y.trace.processed[e.skip..], e.start);
  }

  lemma ShutdownIn(y: Sys, e: Stretch)
    requires ValidSys(y) && InputInv(y, e)
    ensures FedIn(y.server, Srv.PrepareShutdown(y.server), y.trace.log, y.trace.processed[e.skip..], e.start)
  {
    hide Delivered, BufferOk;
    assert y.trace.processed[e.skip..] + [] == y.trace.processed[e.skip..] && y.server.pty + PtyOps([]) == y.server.pty;
  }

  lemma PtyOutputIn(y: Sys, count: nat, screen: Grid, now: Time, e: Stretch)
    requires InputInv(y, e)
    ensures InputInv(y.(server := Srv.PtyBytes(y.server, count, screen, now), clock := now), e)
  {
    hide Delivered, BufferOk, PtyOps, ClientIn;
  }

  lemma FedInStream(y: Sys, f: Srv.Fed, e: Stretch)
    requires InputInv(y, e) && FedIn(y.server, f, y.trace.log, y.trace.processed[e.skip..], e.start)
    ensures FedStream(y.server, f, y.trace.log, y.trace.processed[e.skip..], e.start)
  {
  }

  /** A handshake step ends the stretch exactly when it resets the session to another number than the current ack. */
  lemma HandshakeStepIn(y: Sys, step: Step, e: Stretch)
    requires ValidSys(y) && Enabled(y, step) && InputInv(y, e) && step.event.HandshakeArrives?
    ensures InputInv(Next(y, step), StretchAfter(y, step, e))
    ensures InputInv(Next(y, step), e) <==> KeepsWindow(y, step)
    ensures !KeepsWindow(y, step) ==>
              var z := Next(y, step);
              z.trace.processed == y.trace.processed
              && !Delivered(z.trace.processed[e.skip..], z.trace.log, e.start, z.server.expected)
    ensures !Resets(y, step) ==> Next(y, step).server == y.server
  {
    hide Srv.Feed, FedStream, ClientIn, PtyOps, BufferOk, Srv.FedOk, Fits, Srv.ResetBy;
    var h, env, now := step.event.handshake, step.event.env, step.now;
    var f := Srv.Feed(y.server, h, now, env);
    HandshakeIn(y.server, h, now, env, y.trace.log, y.trace.processed[e.skip..], e.start);
    if KeepsWindow(y, step) {
      ServerStepIn(y, f, now, Srv.ResetBy(y.server, now), e);
    } else {
      assert y.trace.processed + [] == y.trace.processed;
      NewStretch(y, step, e);
    }
  }

  /** A reset that moves the window starts a stretch of its own at the handshake's number. */
  lemma NewStretch(y: Sys, step: Step, e: Stretch)
    requires ValidSys(y) && Enabled(y, step) && InputInv(y, e) && !KeepsWindow(y, step)
    ensures InputInv(Next(y, step), Stretch(|y.trace.processed|, step.event.handshake.seqNum, false))
  {
    hide Srv.Feed, ClientIn, PtyOps, Srv.FedOk, Fits, Srv.ResetBy, Delivered;
    var h, env, now := step.event.handshake, step.event.env, step.now;
    ResetIn(y.server, h, now, env, y.trace.log, y.trace.processed[e.skip..], e.start);
    ForgetMore(CoreOf(y.client), y.toServer, y.trace.log, Remembered(y, e), 0);
    assert y.trace.processed + [] == y.trace.processed;
    assert y.trace.processed[|y.trace.processed|..] == [];
    NothingDelivered(y.trace.log, h.seqNum);
  }

  lemma NothingDelivered(log: seq<ClientPayload>, start: nat)
    ensures Delivered([], log, start, start + 1)
  {
  }

  lemma OnlyHandshakesReset(y: Sys, step: Step)
    ensures !step.event.HandshakeArrives? ==> KeepsWindow(y, step)
  {
  }

  lemma StepIn(y: Sys, step: Step, e: Stretch)
    requires ValidSys(y) && Enabled(y, step) && InputInv(y, e)
    ensures InputInv(Next(y, step), StretchAfter(y, step, e))
  {
    hide InputInv, AfterServer, AfterClient, AfterReceive, AfterStdin, AfterTick, Srv.Feed, Srv.Finish, Cli.OnWinch,
         Fits, FedIn, FedStream, KeepsWindow;
    var now := step.now;
    OnlyHandshakesReset(y, step);
    match step.event {
      case ClientReceives(p) => ReceiveIn(y, p, now, e);
      case ServerReceives(p, env) =>
        var f := Srv.Feed(y.server, p, now, env);
        ServerReceivesIn(y, p, now, env, e);
        FedInStream(y, f, e);
        ServerStepIn(y, f, now, false, e);
      case HandshakeArrives(p, env) => HandshakeStepIn(y, step, e);
      case PtyOutput(count, screen) => PtyOutputIn(y, count, screen, now, e);
      case ServerTick(echo) =>
        FinishStepIn(y, now, echo, e);
        FedInStream(y, Srv.Finish(y.server, [], [], now, echo), e);
        ServerStepIn(y, Srv.Finish(y.server, [], [], now, echo), now, false, e);
      case ServerShutdown =>
        ShutdownIn(y, e);
        FedInStream(y, Srv.PrepareShutdown(y.server), e);
        ServerStepIn(y, Srv.PrepareShutdown(y.server), now, false, e);
      case Stdin(buf) => StdinIn(y, buf, now, e);
      case Winch(cols, rows) => WinchIn(y, cols, rows, now, e);
      case ClientTick(incomplete) => TickIn(y, incomplete, now, e);
    }
  }

  lemma {:induction false} RunFromIn(y: Sys, steps: seq<Step>, e: Stretch)
    requires ValidSys(y) && InputInv(y, e) && RunFrom(y, steps).Some?
    ensures InputInv(RunFrom(y, steps).value, StretchOf(y, steps, e))
    decreases |steps|
  {
    hide InputInv, Enabled, Next, ValidSys, StretchAfter;
    if steps != [] {
      var before := steps[..|steps| - 1];
      RunFromIn(y, before, e);
      StepIn(RunFrom(y, before).value, steps[|steps| - 1], StretchOf(y, before, e));
    }
  }

  /** While no reset moves the window, the stretch stays the same. */
  lemma {:induction false} SameStretch(y: Sys, steps: seq<Step>, e: Stretch)
    requires ValidSys(y) && RunFrom(y, steps).Some? && WindowKept(y, steps)
    ensures StretchOf(y, steps, e) == e
    decreases |steps|
  {
    hide Enabled, Next, ValidSys, KeepsWindow;
    if steps != [] {
      SameStretch(y, steps[..|steps| - 1], e);
    }
  }

  lemma KeptRunIn(y: Sys, steps: seq<Step>, e: Stretch)
    requires ValidSys(y) && InputInv(y, e) && RunFrom(y, steps).Some? && WindowKept(y, steps)
    ensures InputInv(RunFrom(y, steps).value, e)
  {
    hide InputInv, RunFrom, WindowKept, StretchOf;
    RunFromIn(y, steps, e);
    SameStretch(y, steps, e);
  }

  /** The input channel's invariant on every run, whatever resets it has. */
  lemma RunIn(g: Config, steps: seq<Step>)
    requires ValidConfig(g) && Run(g, steps).Some?
    ensures InputInv(Run(g, steps).value, PresentStretch(g, steps))
    ensures WindowKept(Init(g), steps) ==> PresentStretch(g, steps) == FirstStretch(g)
  {
    hide InputInv, RunFrom, WindowKept, StretchOf;
    StartsIn(g);
    RunFromIn(Init(g), steps, FirstStretch(g));
    if WindowKept(Init(g), steps) {
      SameStretch(Init(g), steps, FirstStretch(g));
    }
  }

  lemma StartsIn(g: Config)
    requires ValidConfig(g)
    ensures InputInv(Init(g), FirstStretch(g))
  {
  }
}

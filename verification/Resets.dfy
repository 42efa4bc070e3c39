/** What a session reset does to the input stream: which payloads can still be processed, again or never. */
module SessionResets {
  import opened Base
  import opened TerminalGrid
  import opened Protocol
  import opened Network
  import opened InputChannel
  import opened InputRuns
  import opened ScreenRuns
  import opened Delivery
  import Srv = ServerSession
  import Cli = ClientSession

  /** Past the first `from` items, one with this number was processed. */
  predicate ProcessedSince(y: Sys, from: nat, n: nat) {
    exists k :: from <= k < |y.trace.processed| && y.trace.processed[k].seqNum == n
  }

  /** Without another reset, the steps make the server process a payload numbered `n`, for the first time or anew. */
  ghost predicate ProcessedBy(y: Sys, more: seq<Step>, n: nat)
    requires ValidSys(y)
  {
    RunFrom(y, more).Some? && NoResets(y, more) && ProcessedSince(RunFrom(y, more).value, |y.trace.processed|, n)
  }

  /** Some continuation without another reset processes a payload numbered `n`. */
  ghost predicate CanBeProcessed(y: Sys, n: nat)
    requires ValidSys(y)
  {
    exists more: seq<Step> :: ProcessedBy(y, more, n)
  }

  /**
   * Two states of one stretch: what is processed from the first to the second is exactly what lies between
   * their windows.
   */
  lemma ProcessedBetween(y: Sys, z: Sys, e: Stretch, n: nat)
    requires InputInv(y, e) && InputInv(z, e)
    ensures ProcessedSince(z, |y.trace.processed|, n) <==> y.server.expected <= n < z.server.expected
  {
    hide PtyOps, BufferOk, FromLog, ClientIn;
    var before, stream := |y.trace.processed|, z.trace.processed[e.skip..];
    assert before == e.skip + y.server.expected - 1 - e.start;
    if ProcessedSince(z, before, n) {
      var k :| before <= k < |z.trace.processed| && z.trace.processed[k].seqNum == n;
      assert stream[k - e.skip] == z.trace.processed[k];
    }
    if y.server.expected <= n < z.server.expected {
      assert stream[n - e.start - 1] == z.trace.processed[e.skip + n - e.start - 1];
    }
  }

  // ----- the next payload can always be delivered -----

  /** The next expected packet was sent, and delivering it moves the window on. */
  lemma DeliverNext(y: Sys, e: Stretch) returns (step: Step)
    requires ValidSys(y) && InputInv(y, e) && ScreenInv(y) && y.server.expected <= |y.trace.log|
    ensures Enabled(y, step) && !Resets(y, step)
    ensures Next(y, step).trace.log == y.trace.log && Next(y, step).server.expected > y.server.expected
    ensures InputInv(Next(y, step), e) && ScreenInv(Next(y, step))
  {
    hide ScreenInv, Srv.Feed, FedIn, Delivered, Fits, PtyOps;
    ScreenFits(y);
    assert Sent(y.toServer, y.server.expected);
    var q :| q in y.toServer && q.seqNum == y.server.expected;
    step := Step(y.clock, ServerReceives(q, Srv.Env(y.server.screen, false)));
    ServerReceivesIn(y, q, y.clock, step.event.env, e);
    StepIn(y, step, e);
    StepKeeps(y, step);
    FedMovesOn(y, Srv.Feed(y.server, q, y.clock, step.event.env), e);
  }

  lemma ScreenFits(y: Sys)
    requires ScreenInv(y)
    ensures Fits(y.server.screen)
  {
  }

  lemma FedMovesOn(y: Sys, f: Srv.Fed, e: Stretch)
    requires InputInv(y, e) && FedIn(y.server, f, y.trace.log, y.trace.processed[e.skip..], e.start)
    requires Kept(f.server, y.server.expected)
    ensures f.server.expected > y.server.expected
  {
    hide Delivered, PtyOps;
  }

  /** Delivering the packets in order reaches any number of the log that is not behind the window. */
  lemma {:induction false} DeliverUpTo(y: Sys, e: Stretch, n: nat) returns (more: seq<Step>)
    requires ValidSys(y) && InputInv(y, e) && ScreenInv(y) && n <= |y.trace.log|
    ensures RunFrom(y, more).Some? && NoResets(y, more)
    ensures RunFrom(y, more).value.server.expected > n && InputInv(RunFrom(y, more).value, e)
    decreases n + 1 - y.server.expected
  {
    hide InputInv, ScreenInv, Enabled, Next, ValidSys, Resets;
    if n < y.server.expected {
      more := [];
    } else {
      var step := DeliverNext(y, e);
      RunOne(y, step);
      var rest := DeliverUpTo(Next(y, step), e, n);
      more := [step] + rest;
      RunFromJoin(y, [step], rest);
      NoResetsJoin(y, [step], rest);
    }
  }

  lemma ProcessableAbove(y: Sys, e: Stretch, n: nat)
    requires ValidSys(y) && InputInv(y, e) && ScreenInv(y) && n <= |y.trace.log|
    ensures CanBeProcessed(y, n) <==> y.server.expected <= n
  {
    hide InputInv, ScreenInv, RunFrom, NoResets, ValidSys, ProcessedSince, WindowKept;
    if y.server.expected <= n {
      var more := DeliverUpTo(y, e, n);
      ProcessedBetween(y, RunFrom(y, more).value, e, n);
      assert ProcessedBy(y, more, n);
    }
    if CanBeProcessed(y, n) {
      var more :| ProcessedBy(y, more, n);
      NoResetsKeepWindow(y, more);
      KeptRunIn(y, more, e);
      ProcessedBetween(y, RunFrom(y, more).value, e, n);
    }
  }

  /**
   * On every run, whatever resets it has: a numbered payload can be processed from here on without
   * another reset if and only if it lies above the acknowledged number. Nothing above is ever stuck, and
   * nothing up to there comes back.
   */
  lemma ProcessableIffAboveAck(g: Config, steps: seq<Step>, n: nat)
    requires ValidConfig(g) && Run(g, steps).Some? && n <= |Run(g, steps).value.trace.log|
    ensures var y := Run(g, steps).value; CanBeProcessed(y, n) <==> n > y.server.ackSeq
  {
    hide Run, ScreenInv, CanBeProcessed, PresentStretch, InputInv;
    var y, e := Run(g, steps).value, PresentStretch(g, steps);
    RunIn(g, steps);
    RunKeeps(g, steps);
    AckOf(y, e);
    ProcessableAbove(y, e, n);
  }

  lemma AckOf(y: Sys, e: Stretch)
    requires InputInv(y, e)
    ensures y.server.ackSeq == y.server.expected - 1 && e.start <= y.server.ackSeq <= Max(e.start, |y.trace.log|)
  {
    hide BufferOk, PtyOps;
  }

  // ----- resets -----

  lemma AfterReset(y: Sys, step: Step, e: Stretch)
    requires ValidSys(y) && Enabled(y, step) && InputInv(y, e) && Resets(y, step)
    ensures var z := Next(y, step);
            && z.server.ackSeq == step.event.handshake.seqNum && z.server.expected == z.server.ackSeq + 1
            && z.trace.log == y.trace.log && z.trace.processed == y.trace.processed
  {
    hide Srv.Feed, Delivered, BufferOk, Srv.FedOk, Fits, Srv.ResetBy, ClientIn, PtyOps;
    ResetIn(y.server, step.event.handshake, step.now, step.event.env, y.trace.log, y.trace.processed[e.skip..],
            e.start);
    assert y.trace.processed + [] == y.trace.processed;
  }

  /**
   * After a reset by a handshake carrying h, at any point of any run, a numbered payload can be processed,
   * for the first time or once more, if and only if its number is above h.
   */
  lemma ResetDecides(g: Config, steps: seq<Step>, step: Step, n: nat)
    requires ValidConfig(g) && Run(g, steps).Some? && n <= |Run(g, steps).value.trace.log|
    requires Enabled(Run(g, steps).value, step) && Resets(Run(g, steps).value, step)
    ensures CanBeProcessed(Next(Run(g, steps).value, step), n) <==> n > step.event.handshake.seqNum
  {
    hide RunFrom, ScreenInv, CanBeProcessed, PresentStretch, InputInv, Enabled, Next, Resets;
    var y, e := Run(g, steps).value, PresentStretch(g, steps);
    RunIn(g, steps);
    AfterReset(y, step, e);
    OneStepMore(g, steps, step);
    ProcessableIffAboveAck(g, steps + [step], n);
  }

  lemma OneStepMore(g: Config, steps: seq<Step>, step: Step)
    requires ValidConfig(g) && Run(g, steps).Some? && Enabled(Run(g, steps).value, step)
    ensures Run(g, steps + [step]) == Some(Next(Run(g, steps).value, step))
  {
    hide Enabled, Next;
    assert (steps + [step])[..|steps + [step]| - 1] == steps;
  }

  /** A payload the server processed at any time before the reset can be processed again after it. */
  ghost predicate Redeliverable(g: Config, steps: seq<Step>, step: Step, n: nat)
    requires ValidConfig(g) && Run(g, steps).Some? && Enabled(Run(g, steps).value, step)
  {
    var y := Run(g, steps).value;
    ProcessedSince(y, 0, n) && CanBeProcessed(Next(y, step), n)
  }

  /** A numbered payload could be processed before the reset and cannot after it. */
  ghost predicate Lost(g: Config, steps: seq<Step>, step: Step, n: nat)
    requires ValidConfig(g) && Run(g, steps).Some? && Enabled(Run(g, steps).value, step)
  {
    var y := Run(g, steps).value;
    n <= |y.trace.log| && CanBeProcessed(y, n) && !CanBeProcessed(Next(y, step), n)
  }

  /** The highest number among the items, 0 without any. */
  function Highest(items: seq<Srv.Item>): (r: nat) {
    if items == [] then 0 else Max(Highest(items[..|items| - 1]), items[|items| - 1].seqNum)
  }

  lemma {:induction false} HighestIs(items: seq<Srv.Item>)
    ensures forall i | i in items :: i.seqNum <= Highest(items)
    ensures items != [] ==> exists i :: i in items && i.seqNum == Highest(items)
    decreases |items|
  {
    if items != [] {
      var before, last := items[..|items| - 1], items[|items| - 1];
      HighestIs(before);
      assert items == before + [last];
      if last.seqNum >= Highest(before) {
        assert last in items && last.seqNum == Highest(items);
      } else {
        var i :| i in before && i.seqNum == Highest(before);
        assert i in items && i.seqNum == Highest(items);
      }
    }
  }

  /** While the window is kept, the highest number processed is the acknowledged one, if anything was processed. */
  lemma HighestIsAcknowledged(y: Sys, e: Stretch)
    requires InputInv(y, e) && e.skip == 0
    ensures Highest(y.trace.processed) == if e.start < y.server.ackSeq then y.server.ackSeq else 0
  {
    hide PtyOps, BufferOk;
    var processed := y.trace.processed;
    assert processed[0..] == processed;
    HighestIs(processed);
    if e.start < y.server.ackSeq {
      assert processed[|processed| - 1] in processed;
    }
  }

  lemma ProcessedEver(y: Sys, e: Stretch, n: nat)
    requires InputInv(y, e) && ProcessedSince(y, 0, n)
    ensures 1 <= n <= |y.trace.log| && n <= Highest(y.trace.processed)
  {
    hide PtyOps, BufferOk, Delivered;
    HighestIs(y.trace.processed);
  }

  /**
   * A reset lets some payload the server processed earlier be processed again if and only if the
   * handshake's number is below the highest number ever processed. On a run that kept its window so far,
   * that is: below the acknowledged number, when the server processed anything at all.
   */
  lemma ResetRedeliversIff(g: Config, steps: seq<Step>, step: Step)
    requires ValidConfig(g) && Run(g, steps).Some?
    requires Enabled(Run(g, steps).value, step) && Resets(Run(g, steps).value, step)
    ensures var y, h := Run(g, steps).value, step.event.handshake.seqNum;
            && ((exists n :: Redeliverable(g, steps, step, n)) <==> h < Highest(y.trace.processed))
            && (WindowKept(Init(g), steps) ==>
                  (h < Highest(y.trace.processed) <==> h < y.server.ackSeq && g.clientStart < y.server.ackSeq))
  {
    hide RunFrom, PresentStretch, InputInv, WindowKept, Enabled, Next, Srv.ResetBy, CanBeProcessed, Highest;
    var y, e := Run(g, steps).value, PresentStretch(g, steps);
    RunIn(g, steps);
    HighestIs(y.trace.processed);
    if step.event.handshake.seqNum < Highest(y.trace.processed) {
      assert Highest([]) == 0 by { NothingHighest(); }
      var i :| i in y.trace.processed && i.seqNum == Highest(y.trace.processed);
      assert ProcessedSince(y, 0, i.seqNum);
      ProcessedEver(y, e, i.seqNum);
      ResetDecides(g, steps, step, i.seqNum);
      assert Redeliverable(g, steps, step, i.seqNum);
    }
    if n :| Redeliverable(g, steps, step, n) {
      ProcessedEver(y, e, n);
      ResetDecides(g, steps, step, n);
    }
    if WindowKept(Init(g), steps) {
      HighestIsAcknowledged(y, e);
    }
  }

  lemma NothingHighest()
    ensures Highest([]) == 0
  {
  }

  /** Exactly the numbered payloads above the acknowledged number and up to h are skipped. */
  lemma LostExactly(g: Config, steps: seq<Step>, step: Step, n: nat)
    requires ValidConfig(g) && Run(g, steps).Some?
    requires Enabled(Run(g, steps).value, step) && Resets(Run(g, steps).value, step)
    ensures var y, h := Run(g, steps).value, step.event.handshake.seqNum;
            Lost(g, steps, step, n) <==> y.server.ackSeq < n <= Min(h, |y.trace.log|)
  {
    hide Run, CanBeProcessed, Enabled, Next, Resets;
    if n <= |Run(g, steps).value.trace.log| {
      ProcessableIffAboveAck(g, steps, n);
      ResetDecides(g, steps, step, n);
    }
  }

  /**
   * A reset makes the server skip some numbered payload if and only if the handshake's number is above
   * the acknowledged one and a numbered payload is still unprocessed.
   */
  lemma ResetLosesIff(g: Config, steps: seq<Step>, step: Step)
    requires ValidConfig(g) && Run(g, steps).Some?
    requires Enabled(Run(g, steps).value, step) && Resets(Run(g, steps).value, step)
    ensures var y, h := Run(g, steps).value, step.event.handshake.seqNum;
            (exists n :: Lost(g, steps, step, n)) <==> h > y.server.ackSeq && |y.trace.log| > y.server.ackSeq
  {
    hide Run, Enabled, Next, Resets, Lost;
    var y := Run(g, steps).value;
    LostExactly(g, steps, step, y.server.ackSeq + 1);
    if n :| Lost(g, steps, step, n) {
      LostExactly(g, steps, step, n);
    }
  }

  // ----- one concrete rewind -----

  lemma InOrderItems(s: Srv.Server, p: ClientPacket, now: Time, env: Srv.Env)
    requires p.sessionId == s.sessionId != 0 && p.payload.Keystrokes? && p.seqNum == s.expected < TRANSIENT_BIT
    requires s.expected + 1 !in s.outOfOrder
    ensures var f := Srv.Feed(s, p, now, env);
            && f.items == [Srv.Item(p.seqNum, p.payload)] && f.server.pty == s.pty + [Srv.Wrote(p.payload.keys)]
            && f.server.sessionId == s.sessionId && f.server.lastRecv == now
  {
    hide Srv.CheckSync, Srv.Remaining;
    var s1 := s.(lastRecv := now);
    var items := [Srv.Item(p.seqNum, p.payload)];
    assert Srv.Released(s1, p) == items;
    assert items[..0] == [];
    assert PtyOps(items) == [Srv.Wrote(p.payload.keys)];
    var done := Srv.ProcessItems(Srv.Advance(s1, p), items, env.resized);
    ItemsWrite(Srv.Advance(s1, p), items, env.resized);
    Srv.ProcessChangesLittle(Srv.Advance(s1, p), items, env.resized);
    SyncChangesLittle(done.server, now, env.echo);
    SyncKeepsRecv(done.server, now, env.echo);
  }

  lemma SyncKeepsRecv(s: Srv.Server, now: Time, echo: bool)
    ensures Srv.CheckSync(s, now, echo).server.lastRecv == s.lastRecv
  {
    hide Srv.PruneHistory, Srv.ReferenceFor, Record;
  }

  lemma HandshakeRewinds(s: Srv.Server, h: ClientPacket, now: Time, env: Srv.Env)
    requires h.sessionId == 0 && now - s.lastRecv >= Srv.HANDSHAKE_SILENCE
    ensures var t := Srv.Feed(s, h, now, env).server;
            t.expected == h.seqNum + 1 && t.outOfOrder == map[] && t.pty == s.pty && t.sessionId == s.sessionId
  {
    hide Srv.CheckSync;
    SyncChangesLittle(Srv.Reset(s, h, now), now, env.echo);
  }

  /**
   * For instance: a handshake after five seconds of silence rewinds the window by one, and a copy of a
   * processed keystroke packet still in the network is written to the PTY again.
   */
  lemma ResetDeliversAgain(s: Srv.Server, p: ClientPacket, h: ClientPacket, times: (Time, Time, Time), env: Srv.Env)
    requires p.sessionId == s.sessionId != 0 && p.payload.Keystrokes? && p.seqNum == s.expected < TRANSIENT_BIT
    requires s.expected + 1 !in s.outOfOrder
    requires h.sessionId == 0 && h.seqNum + 1 == p.seqNum && times.1 - times.0 >= Srv.HANDSHAKE_SILENCE
    ensures var first := Srv.Feed(s, p, times.0, env);
            var again := Srv.Feed(Srv.Feed(first.server, h, times.1, env).server, p, times.2, env);
            && first.items == again.items == [Srv.Item(p.seqNum, p.payload)]
            && again.server.pty == s.pty + [Srv.Wrote(p.payload.keys), Srv.Wrote(p.payload.keys)]
  {
    hide Srv.Feed;
    var first := Srv.Feed(s, p, times.0, env);
    InOrderItems(s, p, times.0, env);
    HandshakeRewinds(first.server, h, times.1, env);
    InOrderItems(Srv.Feed(first.server, h, times.1, env).server, p, times.2, env);
  }
}

/** How often the client asks for the missing fragments of one frame, on every run. */
module NackPacing {
  import opened Base
  import opened TerminalGrid
  import opened Protocol
  import opened Network
  import opened ClientWire
  import opened NackLoop
  import EscapeFilter
  import LocalEcho
  import MirroredFrame
  import Srv = ServerSession
  import Cli = ClientSession

  /** The step is a tick that sends a NACK for frame `n`. */
  predicate Nacks(y: Sys, step: Step, n: nat) {
    step.event.ClientTick? && AnyNack(SentBy(Cli.Tick(y.client, step.event.incomplete, step.now).later), n)
  }

  ghost function NackTimes(y: Sys, steps: seq<Step>, n: nat): (times: seq<Time>)
    requires ValidSys(y) && RunFrom(y, steps).Some?
    decreases |steps|
  {
    if steps == [] then []
    else
      var before, last := steps[..|steps| - 1], steps[|steps| - 1];
      NackTimes(y, before, n) + (if Nacks(RunFrom(y, before).value, last, n) then [last.now] else [])
  }

  /** Of a frame that is not superseded the client remembers the last NACK, or all of them are long past. */
  predicate NackInv(c: Cli.Client, clock: Time, n: nat, times: seq<Time>) {
    && c.lastNack <= clock && (n in c.nacked ==> c.nacked[n] <= c.lastNack)
    && (n > c.ackSeq ==> forall t | t in times :: if n in c.nacked then t <= c.nacked[n] else c.lastNack - t >= 100)
  }

  // ----- one tick -----

  /** What a pass over the reports does for frame `n`: nothing, or one NACK, which is remembered. */
  predicate PassFor(c: Cli.Client, t: Cli.Outgoing, n: nat, now: Time) {
    && t.client.lastNack == c.lastNack && t.client.ackSeq == c.ackSeq
    && if AnyNack(SentBy(t.actions), n)
       then n in t.client.nacked && t.client.nacked[n] == now && (n in c.nacked ==> now - c.nacked[n] >= 100)
       else (n in t.client.nacked <==> n in c.nacked) && (n in c.nacked ==> t.client.nacked[n] == c.nacked[n])
  }

  lemma {:induction false} PassOver(c: Cli.Client, reports: seq<Cli.Report>, now: Time, n: nat)
    ensures PassFor(c, Cli.NackAll(c, reports, now), n, now)
    decreases |reports|
  {
    if reports == [] {
      assert SentBy([]) == {};
    } else {
      var t := Cli.NackAll(c, reports[..|reports| - 1], now);
      PassOver(c, reports[..|reports| - 1], now, n);
      OneReport(t.client, reports[|reports| - 1], now, n);
      hide AnyNack, SentBy, Cli.NackOne;
      var u := Cli.NackOne(t.client, reports[|reports| - 1], now);
      SentByJoin(t.actions, u.actions);
      AnyNackJoin(SentBy(t.actions), SentBy(u.actions), n);
    }
  }

  lemma OneReport(c: Cli.Client, r: Cli.Report, now: Time, n: nat)
    ensures PassFor(c, Cli.NackOne(c, r, now), n, now)
  {
    hide SentBy, AnyNack;
    NackOneSends(c, r, now);
    NackedIsAny(SentBy(Cli.NackOne(c, r, now).actions), r);
  }

  lemma NackedIsAny(sent: set<ClientPacket>, r: Cli.Report)
    ensures Nacked(sent, r) ==> AnyNack(sent, r.frameSeq)
  {
  }

  lemma AnyNackJoin(a: set<ClientPacket>, b: set<ClientPacket>, n: nat)
    ensures AnyNack(a + b, n) <==> AnyNack(a, n) || AnyNack(b, n)
  {
  }

  /** A tick before the 40 ms are over sends none; afterwards it remembers its NACKs of frames not superseded. */
  lemma CheckKeeps(c: Cli.Client, incomplete: seq<Cli.Report>, now: Time, clock: Time, n: nat, times: seq<Time>)
    requires NackInv(c, clock, n, times) && now >= clock
    ensures var t := Cli.TickNack(c, incomplete, now);
            var nacked := AnyNack(SentBy(t.actions), n);
            && NackInv(t.client, now, n, times + (if nacked then [now] else []))
            && (nacked ==> now - c.lastNack >= 40 && (n > c.ackSeq ==> forall s | s in times :: now - s >= 100))
  {
    hide Cli.NackAll, AnyNack, SentBy;
    assert times + [] == times;
    if Since(now, c.lastNack) < 40 {
      NothingAsked(n);
    } else {
      PassOver(c.(lastNack := now), incomplete, now, n);
    }
  }

  lemma NothingAsked(n: nat)
    ensures !AnyNack(SentBy([]), n)
  {
    assert SentBy([]) == {};
  }

  lemma OnlyNacksAsk(actions: seq<Cli.ClientAction>, n: nat)
    requires forall a | a in actions :: !a.Send?
    ensures !AnyNack(SentBy(actions), n)
  {
    assert SentBy(actions) == {};
  }

  lemma TickAsksFor(c: Cli.Client, incomplete: seq<Cli.Report>, now: Time, n: nat)
    ensures var k := Cli.Tick(c, incomplete, now);
            var t := Cli.TickNack(BeforeNacks(c, now), incomplete, now);
            && (AnyNack(SentBy(k.later), n) <==> AnyNack(SentBy(t.actions), n)) && k.client == t.client
    ensures var b := BeforeNacks(c, now); b.ackSeq == c.ackSeq && b.nacked == c.nacked && b.lastNack == c.lastNack
  {
    hide Cli.TickKeepalive, Cli.TickArq, Cli.TickNack, AnyNack, SentBy, Cli.Backoff;
    var t3 := Cli.TickBanner(Cli.TickArq(Cli.TickKeepalive(c, now).client, now), now);
    var t4 := Cli.TickTelemetry(t3.client, now);
    var t5 := Cli.TickNack(t4.client, incomplete, now);
    NackStateKept(c, now);
    AckKept(c, now);
    OnlyNacksAsk(t3.actions + t4.actions, n);
    SentByJoin(t3.actions + t4.actions, t5.actions);
    AnyNackJoin(SentBy(t3.actions + t4.actions), SentBy(t5.actions), n);
  }

  lemma AckKept(c: Cli.Client, now: Time)
    ensures Cli.TickArq(Cli.TickKeepalive(c, now).client, now).ackSeq == c.ackSeq
  {
    hide Cli.Overdue, Cli.MarkSent;
  }

  // ----- every run -----

  lemma OthersKeepNacks(c: Cli.Client, p: ServerPacket, buf: seq<byte>, cols: u16, rows: u16, now: Time)
    requires Cli.ValidClient(c)
    ensures var d := Cli.Feed(c, p, now).client;
            d.nacked == c.nacked && d.lastNack == c.lastNack && d.ackSeq >= c.ackSeq
    ensures var d := Cli.FeedStdin(c, buf, now).client;
            d.nacked == c.nacked && d.lastNack == c.lastNack && d.ackSeq == c.ackSeq
    ensures var d := Cli.OnWinch(c, cols, rows, now).client;
            d.nacked == c.nacked && d.lastNack == c.lastNack && d.ackSeq == c.ackSeq
  {
    hide Cli.Feed, Cli.LossAfter, LocalEcho.Reconcile, LocalEcho.Predict, LocalEcho.Abort, Cli.RttAfter,
         MirroredFrame.WithBanner, EscapeFilter.Filter, Cli.CommandActions;
    Cli.FeedChangesLittle(c, p, now);
  }

  lemma NackKept(c: Cli.Client, d: Cli.Client, clock: Time, now: Time, n: nat, times: seq<Time>)
    requires NackInv(c, clock, n, times) && now >= clock
    requires d.nacked == c.nacked && d.lastNack == c.lastNack && d.ackSeq >= c.ackSeq
    ensures NackInv(d, now, n, times)
  {
  }

  lemma StepNacks(y: Sys, step: Step, n: nat, times: seq<Time>)
    requires ValidSys(y) && Enabled(y, step) && NackInv(y.client, y.clock, n, times)
    ensures NackInv(Next(y, step).client, Next(y, step).clock, n,
                    times + (if Nacks(y, step, n) then [step.now] else []))
    ensures Nacks(y, step, n) ==> step.now - y.client.lastNack >= 40
                                  && (n > y.client.ackSeq ==> forall t | t in times :: step.now - t >= 100)
  {
    hide NackInv, AnyNack, Srv.Feed, Srv.Finish, Srv.FedOk, Fits, Cli.Feed, Cli.FeedStdin, Cli.OnWinch, Cli.Tick,
         SendTimesAfter, Numbered, Srv.ResetBy, SentBy, BeforeNacks, Cli.TickNack;
    var c, now, z := y.client, step.now, Next(y, step);
    assert times + [] == times;
    match step.event {
      case ClientTick(incomplete) =>
        TickAsksFor(c, incomplete, now, n);
        NackSame(c, BeforeNacks(c, now), y.clock, n, times);
        CheckKeeps(BeforeNacks(c, now), incomplete, now, y.clock, n, times);
      case ClientReceives(p) =>
        OthersKeepNacks(c, p, [], 0, 0, now);
        NackKept(c, z.client, y.clock, now, n, times);
      case Stdin(buf) =>
        OthersKeepNacks(c, ServerPacket(0, 0, KeepAliveReply), buf, 0, 0, now);
        NackKept(c, z.client, y.clock, now, n, times);
      case Winch(cols, rows) =>
        OthersKeepNacks(c, ServerPacket(0, 0, KeepAliveReply), [], cols, rows, now);
        NackKept(c, z.client, y.clock, now, n, times);
      case ServerReceives(p, env) =>
        FedFits(y, p, now, env);
        NackKept(c, z.client, y.clock, now, n, times);
      case HandshakeArrives(p, env) =>
        FedFits(y, p, now, env);
        NackKept(c, z.client, y.clock, now, n, times);
      case ServerTick(echo) =>
        Srv.FinishValid(y.server, [], [], now, echo);
        NackKept(c, z.client, y.clock, now, n, times);
      case ServerShutdown => NackKept(c, z.client, y.clock, now, n, times);
      case PtyOutput(_, _) => NackKept(c, z.client, y.clock, now, n, times);
    }
  }

  lemma NackSame(c: Cli.Client, d: Cli.Client, clock: Time, n: nat, times: seq<Time>)
    requires NackInv(c, clock, n, times)
    requires d.nacked == c.nacked && d.lastNack == c.lastNack && d.ackSeq == c.ackSeq
    ensures NackInv(d, clock, n, times)
  {
  }

  lemma {:induction false} RunNacks(g: Config, steps: seq<Step>, n: nat)
    requires ValidConfig(g) && Run(g, steps).Some? && ValidSys(Init(g))
    ensures NackInv(Run(g, steps).value.client, Run(g, steps).value.clock, n, NackTimes(Init(g), steps, n))
    decreases |steps|
  {
    hide Enabled, Next, ValidSys, Nacks;
    if steps != [] {
      hide NackInv;
      var before := steps[..|steps| - 1];
      RunNacks(g, before, n);
      StepNacks(Run(g, before).value, steps[|steps| - 1], n, NackTimes(Init(g), before, n));
    }
  }

  /**
   * On every run, a tick that sends a NACK for a frame newer than the acknowledged one comes at least 100 ms after
   * every earlier NACK for it.
   */
  lemma NacksAreSpaced(g: Config, steps: seq<Step>, step: Step, n: nat)
    requires ValidConfig(g) && Run(g, steps).Some? && ValidSys(Init(g)) && Enabled(Run(g, steps).value, step)
    requires Nacks(Run(g, steps).value, step, n)
    ensures n > Run(g, steps).value.client.ackSeq ==>
              forall t | t in NackTimes(Init(g), steps, n) :: step.now - t >= 100
  {
    hide RunFrom, Next, Enabled, ValidSys, Nacks, NackTimes, NackInv;
    RunNacks(g, steps, n);
    StepNacks(Run(g, steps).value, step, n, NackTimes(Init(g), steps, n));
  }

  /**
   * The 100 ms do not hold for a frame that a newer packet superseded while some of it is still buffered: the
   * check that asks for it forgets that it did, so the next check, 40 ms later, asks again.
   */
  lemma SupersededFrameIsAskedAgain(c: Cli.Client, first: seq<Cli.Report>, d: Cli.Client, second: seq<Cli.Report>,
                                    r: Cli.Report, now: Time, later: Time)
    requires r.frameSeq <= c.ackSeq && r.frameSeq !in c.nacked && now - c.lastNack >= 40 && later - now >= 40
    requires Distinct(first) && r in first && Distinct(second) && r in second
    requires d.nacked == Cli.TickNack(c, first, now).client.nacked && d.lastNack == now
    ensures Nacked(SentBy(Cli.TickNack(c, first, now).actions), r)
    ensures Nacked(SentBy(Cli.TickNack(d, second, later).actions), r)
  {
    AskedFor(c, first, r, now);
    SupersededForgotten(c, first, now, r.frameSeq);
    AskedFor(d, second, r, later);
  }

  lemma SupersededForgotten(c: Cli.Client, incomplete: seq<Cli.Report>, now: Time, n: nat)
    requires n <= c.ackSeq && now - c.lastNack >= 40
    ensures n !in Cli.TickNack(c, incomplete, now).client.nacked
  {
    hide Cli.NackAll, AnyNack, SentBy;
    PassOver(c.(lastNack := now), incomplete, now, n);
  }

  lemma AskedFor(c: Cli.Client, incomplete: seq<Cli.Report>, r: Cli.Report, now: Time)
    requires Distinct(incomplete) && r in incomplete && r.frameSeq !in c.nacked && now - c.lastNack >= 40
    ensures Nacked(SentBy(Cli.TickNack(c, incomplete, now).actions), r)
  {
    hide Cli.TickNack, Nacked, SentBy;
    IncompleteFramesAreReported(c, incomplete, now);
    var i :| 0 <= i < |incomplete| && incomplete[i] == r;
    assert NackDue(c, incomplete[i], now);
  }
}

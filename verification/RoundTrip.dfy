/** The round trip the client goes by, and the age at which a packet is sent again. */
module RoundTrip {
  import opened Base
  import opened TerminalGrid
  import opened Protocol
  import opened Network
  import opened Retransmission
  import EscapeFilter
  import ClientMirror
  import LocalEcho
  import MirroredFrame
  import Srv = ServerSession
  import Cli = ClientSession

  // ----- what is measured -----

  /**
   * The arriving packet acknowledges a number for the first time, not after an outage and less than five
   * seconds after it was first put on the wire.
   */
  predicate Measures(y: Sys, step: Step) {
    && step.event.ClientReceives?
    && var ack := step.event.serverPacket.ack;
       && ack in y.client.sent && FirstSent(y, ack)
       && Since(step.now, y.client.lastRecv) <= 5000 && Since(step.now, y.trace.sendTimes[ack][0]) < 5000
  }

  predicate FirstSent(y: Sys, n: nat) {
    n in y.trace.sendTimes && y.trace.sendTimes[n] != []
  }

  /** The time from its first transmission to now. */
  function Measured(y: Sys, step: Step): (ms: nat)
    requires Measures(y, step)
  {
    Since(step.now, y.trace.sendTimes[step.event.serverPacket.ack][0])
  }

  /** Every round trip measured on the run lies between `lo` and `hi`. */
  ghost predicate TripsWithin(g: Config, steps: seq<Step>, lo: nat, hi: nat)
    requires ValidConfig(g) && Run(g, steps).Some?
    decreases |steps|
  {
    steps != [] ==>
      var before, last := steps[..|steps| - 1], steps[|steps| - 1];
      && TripsWithin(g, before, lo, hi)
      && (Measures(Run(g, before).value, last) ==> lo <= Measured(Run(g, before).value, last) <= hi)
  }

  // ----- what the client remembers of it -----

  /** The client's send times are those of the first transmissions, and its round trip is among the measured ones. */
  predicate TripInv(y: Sys, lo: nat, hi: nat) {
    && (forall k | k in y.client.sent :: FirstSent(y, k) && y.client.sent[k] == y.trace.sendTimes[k][0])
    && (forall k | k in y.trace.sendTimes :: k <= y.client.seqNum && y.trace.sendTimes[k] != [])
    && (y.client.rttMs == 0 || lo <= y.client.rttMs <= hi)
  }

  lemma WeightedBetween(r: nat, s: nat, lo: nat, hi: nat)
    requires lo <= r <= hi && lo <= s <= hi
    ensures lo <= (8 * r + 2 * s) / 10 <= hi
  {
  }

  /** A packet leaves the round trip alone, sets it to the first sample, or weighs it four to one with a new one. */
  lemma FeedTrip(c: Cli.Client, p: ServerPacket, now: Time)
    requires Cli.ValidClient(c)
    ensures var d := Cli.Feed(c, p, now).client;
            && d.sent == Cli.Above(c.sent, p.ack) && d.seqNum == c.seqNum
            && d.rttMs == (if p.ack in c.sent && Since(now, c.lastRecv) <= 5000 && Since(now, c.sent[p.ack]) < 5000
                           then Smoothed(c.rttMs, Since(now, c.sent[p.ack])) else c.rttMs)
  {
    hide Cli.Feed, Cli.LossAfter, LocalEcho.Reconcile, MirroredFrame.WithBanner;
    Cli.FeedChangesLittle(c, p, now);
  }

  function Smoothed(rtt: nat, sample: nat): (r: nat) {
    if rtt == 0 then sample else (8 * rtt + 2 * sample) / 10
  }

  /** The client after numbering one packet, or with the same send times. */
  predicate SendsOne(c: Cli.Client, d: Cli.Client, now: Time) {
    d.rttMs == c.rttMs
    && if d.seqNum == c.seqNum then d.sent == c.sent
       else d.seqNum == c.seqNum + 1 && d.sent == c.sent[d.seqNum := now]
  }

  lemma OthersSend(c: Cli.Client, buf: seq<byte>, cols: u16, rows: u16, incomplete: seq<Cli.Report>, now: Time)
    requires Cli.ValidClient(c)
    ensures SendsOne(c, Cli.FeedStdin(c, buf, now).client, now)
    ensures SendsOne(c, Cli.OnWinch(c, cols, rows, now).client, now)
    ensures SendsOne(c, Cli.Tick(c, incomplete, now).client, now)
  {
    hide LocalEcho.Predict, LocalEcho.Abort, EscapeFilter.Filter;
    hide Cli.CommandActions, Cli.Tick, Cli.MarkSent, Cli.Overdue;
    Cli.TickChangesLittle(c, incomplete, now);
  }

  lemma SendsOneTrip(y: Sys, z: Sys, resent: set<nat>, now: Time, lo: nat, hi: nat)
    requires TripInv(y, lo, hi) && SendsOne(y.client, z.client, now)
    requires z.trace.sendTimes == SendTimesAfter(y.trace.sendTimes, y.client, z.client, resent, now)
    ensures TripInv(z, lo, hi)
  {
  }

  lemma SameTrip(y: Sys, z: Sys, lo: nat, hi: nat)
    requires TripInv(y, lo, hi) && z.client == y.client && z.trace.sendTimes == y.trace.sendTimes
    ensures TripInv(z, lo, hi)
  {
  }

  lemma ReceiveTrip(y: Sys, step: Step, lo: nat, hi: nat)
    requires ValidSys(y) && Enabled(y, step) && step.event.ClientReceives? && TripInv(y, lo, hi)
    requires Measures(y, step) ==> lo <= Measured(y, step) <= hi
    ensures TripInv(Next(y, step), lo, hi)
  {
    hide Cli.Feed, Numbered;
    var p, now := step.event.serverPacket, step.now;
    var f := Cli.Feed(y.client, p, now);
    FeedTrip(y.client, p, now);
    if f.outcome.Panicked? {
      SameTrip(y, Next(y, step), lo, hi);
    } else {
      assert SendTimesAfter(y.trace.sendTimes, y.client, f.client, {}, now) == y.trace.sendTimes;
      if Measures(y, step) && y.client.rttMs != 0 {
        WeightedBetween(y.client.rttMs, Measured(y, step), lo, hi);
      }
    }
  }

  lemma StepTrip(y: Sys, step: Step, lo: nat, hi: nat)
    requires ValidSys(y) && Enabled(y, step) && TripInv(y, lo, hi)
    requires Measures(y, step) ==> lo <= Measured(y, step) <= hi
    ensures TripInv(Next(y, step), lo, hi)
  {
    hide TripInv, Srv.Feed, Srv.Finish, Srv.FedOk, Fits, Cli.Feed, Cli.FeedStdin, Cli.OnWinch, Cli.Tick, SendsOne,
         SendTimesAfter, Numbered, Srv.ResetBy, Measures;
    var c, now := y.client, step.now;
    match step.event {
      case ClientReceives(_) => ReceiveTrip(y, step, lo, hi);
      case Stdin(buf) =>
        OthersSend(c, buf, 0, 0, [], now);
        SendsOneTrip(y, Next(y, step), {}, now, lo, hi);
      case Winch(cols, rows) =>
        OthersSend(c, [], cols, rows, [], now);
        SendsOneTrip(y, Next(y, step), {}, now, lo, hi);
      case ClientTick(incomplete) =>
        OthersSend(c, [], 0, 0, incomplete, now);
        SendsOneTrip(y, Next(y, step), Cli.Tick(c, incomplete, now).resent, now, lo, hi);
      case ServerReceives(p, env) =>
        FedFits(y, p, now, env);
        SameTrip(y, Next(y, step), lo, hi);
      case HandshakeArrives(p, env) =>
        FedFits(y, p, now, env);
        SameTrip(y, Next(y, step), lo, hi);
      case ServerTick(echo) =>
        Srv.FinishValid(y.server, [], [], now, echo);
        SameTrip(y, Next(y, step), lo, hi);
      case ServerShutdown => SameTrip(y, Next(y, step), lo, hi);
      case PtyOutput(_, _) => SameTrip(y, Next(y, step), lo, hi);
    }
  }

  lemma {:induction false} RunTrip(g: Config, steps: seq<Step>, lo: nat, hi: nat)
    requires ValidConfig(g) && Run(g, steps).Some? && TripsWithin(g, steps, lo, hi)
    ensures TripInv(Run(g, steps).value, lo, hi)
    decreases |steps|
  {
    hide Enabled, Next, ValidSys, Measures;
    if steps != [] {
      hide TripInv;
      RunTrip(g, steps[..|steps| - 1], lo, hi);
      StepTrip(Run(g, steps[..|steps| - 1]).value, steps[|steps| - 1], lo, hi);
    }
  }

  // ----- the age of a resent packet -----

  /** Twice the round trip, but at least 200 and at most 1000 ms. */
  function Patience(rtt: nat): (ms: nat) {
    if 2 * rtt <= 200 then 200 else if 2 * rtt >= 1000 then 1000 else 2 * rtt
  }

  lemma LimitIs(c: Cli.Client)
    ensures Cli.RttLimit(c) == Patience(c.rttMs)
  {
  }

  lemma {:induction false} LimitsFollowTrips(g: Config, steps: seq<Step>, lo: nat, hi: nat)
    requires ValidConfig(g) && Run(g, steps).Some? && TripsWithin(g, steps, lo, hi)
    ensures LimitsBelow(g, steps, Patience(hi))
    decreases |steps|
  {
    hide RunFrom, Cli.RttLimit, Measures;
    RunTrip(g, steps, lo, hi);
    LimitIs(Run(g, steps).value.client);
    if steps != [] {
      RunPrefix(g, steps);
      LimitsFollowTrips(g, steps[..|steps| - 1], lo, hi);
    }
  }

  lemma RunPrefix(g: Config, steps: seq<Step>)
    requires ValidConfig(g) && Run(g, steps).Some? && steps != []
    ensures Run(g, steps[..|steps| - 1]).Some?
  {
    hide Enabled, Next;
  }

  /**
   * The faster the link, the sooner a lost packet is sent again: on every run whose measured round trips are
   * at most `hi` ms, with the last tick at most d ms ago, every waiting packet was put on the wire less
   * than twice `hi`, kept between 200 and 1000, plus 100 + d ms ago.
   */
  lemma ResentByRoundTrip(g: Config, steps: seq<Step>, lo: nat, hi: nat, d: nat, k: nat)
    requires ValidConfig(g) && Run(g, steps).Some? && TripsWithin(g, steps, lo, hi)
    requires k in Run(g, steps).value.client.unacked
    requires var y := Run(g, steps).value; y.clock - y.trace.lastTick <= d
    ensures var y := Run(g, steps).value;
            && k in y.trace.sendTimes && y.trace.sendTimes[k] != []
            && y.clock - y.trace.sendTimes[k][|y.trace.sendTimes[k]| - 1] < Patience(hi) + 100 + d
  {
    hide Run, LimitsBelow, TripsWithin;
    LimitsFollowTrips(g, steps, lo, hi);
    RetransmittedWithin(g, steps, d, k, Patience(hi));
  }

  /** A tick resends a waiting packet whose age is above what every measured trip allows, and no younger one. */
  lemma ResentAtTheRightAge(g: Config, steps: seq<Step>, lo: nat, hi: nat, incomplete: seq<Cli.Report>, now: Time,
                            k: nat)
    requires ValidConfig(g) && Run(g, steps).Some? && TripsWithin(g, steps, lo, hi)
    requires k in Run(g, steps).value.client.unacked && now >= Run(g, steps).value.clock
    ensures var y := Run(g, steps).value;
            var age := now - y.client.unacked[k].sentAt;
            var resent := Cli.Tick(y.client, incomplete, now).resent;
            && (age >= Patience(hi) && now - y.client.lastArq >= 100 ==> k in resent)
            && (k in resent ==> age >= 200 && now - y.client.lastArq >= 100
                                && (y.client.rttMs != 0 ==> age >= Patience(lo)))
  {
    hide Run, TripsWithin, Cli.TickArq, Cli.TickBanner, Cli.TickTelemetry, Cli.TickNack;
    var y := Run(g, steps).value;
    RunTrip(g, steps, lo, hi);
    RunTimesAnyway(g, steps);
    var t := Cli.TickKeepalive(y.client, now).client;
    LimitIs(t);
  }

  lemma RunTimesAnyway(g: Config, steps: seq<Step>)
    requires ValidConfig(g) && Run(g, steps).Some?
    ensures var y := Run(g, steps).value;
            && y.client.lastArq <= y.clock
            && forall k | k in y.client.unacked :: k <= y.client.seqNum && y.client.unacked[k].sentAt <= y.clock
  {
    hide Run, LimitsBelow;
    NeverAboveASecond(g, steps);
    RunTimes(g, steps, ARQ_LIMIT);
  }
}

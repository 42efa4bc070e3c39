/** Timed retransmission of unacknowledged packets, on every run. */
module Retransmission {
  import opened Base
  import opened TerminalGrid
  import opened Protocol
  import opened Network
  import MirroredFrame
  import Srv = ServerSession
  import Cli = ClientSession

  const ARQ_LIMIT := 1000
  const ARQ_SPACING := 200

  predicate Spaced(times: seq<Time>) {
    forall i | 0 < i < |times| :: times[i] - times[i - 1] >= ARQ_SPACING
  }

  /** Every number's transmissions are at least 200 ms apart, and a waiting packet knows its last one. */
  predicate TimesOk(times: map<nat, seq<Time>>, unacked: map<nat, Cli.Pending>, seqNum: nat, clock: Time) {
    && (forall k | k in times :: times[k] != [] && Spaced(times[k]) && k <= seqNum)
    && (forall k | k in unacked :: k in times && times[k][|times[k]| - 1] == unacked[k].sentAt <= clock)
  }

  /** At the last check nothing was overdue, and a check was due less than 100 ms before the last tick. */
  predicate ChecksOk(unacked: map<nat, Cli.Pending>, lastArq: Time, lastTick: Time, clock: Time, limit: nat) {
    && lastTick - lastArq < Cli.ARQ_INTERVAL && lastArq <= clock && lastTick <= clock
    && forall k | k in unacked :: lastArq - unacked[k].sentAt < limit
  }

  predicate ArqInv(y: Sys, limit: nat) {
    && TimesOk(y.trace.sendTimes, y.client.unacked, y.client.seqNum, y.clock)
    && ChecksOk(y.client.unacked, y.client.lastArq, y.trace.lastTick, y.clock, limit)
  }

  /** The client after numbering a packet, or with fewer packets waiting. */
  predicate NumbersOne(c: Cli.Client, d: Cli.Client, now: Time) {
    && d.seqNum == c.seqNum + 1 && d.lastArq == c.lastArq
    && d.unacked.Keys == c.unacked.Keys + {d.seqNum} && d.unacked[d.seqNum].sentAt == now
    && (forall k | k in c.unacked && k != d.seqNum :: d.unacked[k] == c.unacked[k])
  }

  predicate Prunes(c: Cli.Client, d: Cli.Client) {
    && d.seqNum == c.seqNum && d.lastArq == c.lastArq
    && (forall k | k in d.unacked :: k in c.unacked && d.unacked[k] == c.unacked[k])
  }

  lemma NumbersKeeps(times: map<nat, seq<Time>>, c: Cli.Client, d: Cli.Client, lastTick: Time, clock: Time, now: Time,
                     limit: nat)
    requires TimesOk(times, c.unacked, c.seqNum, clock) && ChecksOk(c.unacked, c.lastArq, lastTick, clock, limit)
    requires now >= clock && NumbersOne(c, d, now) && limit > 0
    ensures TimesOk(SendTimesAfter(times, c, d, {}, now), d.unacked, d.seqNum, now)
    ensures ChecksOk(d.unacked, d.lastArq, lastTick, now, limit)
  {
  }

  lemma PrunesKeeps(times: map<nat, seq<Time>>, c: Cli.Client, d: Cli.Client, lastTick: Time, clock: Time, now: Time,
                    limit: nat)
    requires TimesOk(times, c.unacked, c.seqNum, clock) && ChecksOk(c.unacked, c.lastArq, lastTick, clock, limit)
    requires now >= clock && Prunes(c, d)
    ensures SendTimesAfter(times, c, d, {}, now) == times
    ensures TimesOk(times, d.unacked, d.seqNum, now) && ChecksOk(d.unacked, d.lastArq, lastTick, now, limit)
  {
  }

  function Again(times: map<nat, seq<Time>>, which: set<nat>, now: Time): (r: map<nat, seq<Time>>) {
    map k | k in times :: if k in which then times[k] + [now] else times[k]
  }

  lemma AgainSpaced(times: seq<Time>, now: Time)
    requires Spaced(times) && times != [] && now - times[|times| - 1] >= ARQ_SPACING
    ensures Spaced(times + [now])
  {
  }

  lemma AgainOk(times: map<nat, seq<Time>>, unacked: map<nat, Cli.Pending>, seqNum: nat, which: set<nat>, now: Time)
    requires TimesOk(times, unacked, seqNum, now)
    requires forall k | k in which :: k in unacked && now - unacked[k].sentAt >= ARQ_SPACING
    ensures TimesOk(Again(times, which, now), Cli.MarkSent(unacked, which, now), seqNum, now)
  {
    hide Spaced;
    forall k | k in times && k in which ensures Spaced(times[k] + [now]) {
      AgainSpaced(times[k], now);
    }
  }

  lemma NothingAgain(times: map<nat, seq<Time>>, now: Time)
    ensures Again(times, {}, now) == times
  {
  }

  /** A check resends what is overdue, and at least 200 ms after its last transmission. */
  lemma CheckKeeps(times: map<nat, seq<Time>>, c: Cli.Client, lastTick: Time, now: Time, limit: nat)
    requires Cli.RttLimit(c) <= limit
    requires TimesOk(times, c.unacked, c.seqNum, now) && ChecksOk(c.unacked, c.lastArq, lastTick, now, limit)
    ensures var d := Cli.TickArq(c, now);
            && TimesOk(Again(times, Cli.Overdue(c, now), now), d.unacked, d.seqNum, now)
            && ChecksOk(d.unacked, d.lastArq, now, now, limit)
  {
    hide TimesOk, Again, Cli.RttLimit;
    var due := Cli.Overdue(c, now);
    if Since(now, c.lastArq) < Cli.ARQ_INTERVAL {
      NothingAgain(times, now);
    } else {
      AgainOk(times, c.unacked, c.seqNum, due, now);
    }
  }

  lemma StdinTimes(c: Cli.Client, buf: seq<byte>, now: Time)
    requires Cli.ValidClient(c)
    ensures var d := Cli.FeedStdin(c, buf, now).client; NumbersOne(c, d, now) || Prunes(c, d)
  {
    hide LocalEcho.Predict, EscapeFilter.Filter, Cli.CommandActions, Cli.Printable, Cli.MarkDirty;
    var p := Cli.PrepareReliable(c, Keystrokes(EscapeFilter.Filter(c.escape, buf).sent), now).client;
    assert NumbersOne(c, p, now);
  }

  lemma WinchTimes(c: Cli.Client, cols: u16, rows: u16, now: Time)
    requires Cli.ValidClient(c)
    ensures NumbersOne(c, Cli.OnWinch(c, cols, rows, now).client, now)
  {
    hide LocalEcho.Abort;
    assert NumbersOne(c, Cli.PrepareReliable(c, Resize(cols, rows), now).client, now);
  }

  lemma FeedTimes(c: Cli.Client, p: ServerPacket, now: Time)
    requires Cli.ValidClient(c)
    ensures Prunes(c, Cli.Feed(c, p, now).client)
  {
    hide Cli.Feed, Cli.LossAfter, LocalEcho.Reconcile, Cli.RttAfter, MirroredFrame.WithBanner;
    Cli.FeedChangesLittle(c, p, now);
  }

  lemma KeepaliveTimes(c: Cli.Client, now: Time)
    ensures var d := Cli.TickKeepalive(c, now).client; NumbersOne(c, d, now) || d == c
    ensures Cli.RttLimit(Cli.TickKeepalive(c, now).client) == Cli.RttLimit(c)
  {
    assert NumbersOne(c, Cli.PrepareReliable(c, KeepAlive, now).client, now);
  }

  /** Resending after numbering, in either order of the trace. */
  lemma SendTimesSplit(times: map<nat, seq<Time>>, c: Cli.Client, t: Cli.Client, d: Cli.Client, which: set<nat>,
                       now: Time)
    requires d.seqNum == t.seqNum && (t.seqNum == c.seqNum + 1 || t.seqNum == c.seqNum)
             && (t.seqNum == c.seqNum + 1 ==> t.seqNum !in which)
    ensures SendTimesAfter(times, c, d, which, now) == Again(SendTimesAfter(times, c, t, {}, now), which, now)
  {
  }

  lemma TickTimes(y: Sys, incomplete: seq<Cli.Report>, now: Time, limit: nat)
    requires Cli.RttLimit(y.client) <= limit && ValidSys(y) && ArqInv(y, limit) && now >= y.clock
    ensures ArqInv(AfterTick(y, incomplete, now), limit)
  {
    hide Cli.Tick, Cli.TickKeepalive, Cli.TickArq, TimesOk, ChecksOk, SendTimesAfter, SentBy, ResentPackets,
         Cli.Overdue, Again, NumbersOne;
    var c, k := y.client, Cli.Tick(y.client, incomplete, now);
    var t := Cli.TickKeepalive(c, now).client;
    KeepaliveTimes(c, now);
    Cli.TickChangesLittle(c, incomplete, now);
    if t == c {
      PrunesKeeps(y.trace.sendTimes, c, t, y.trace.lastTick, y.clock, now, limit);
    } else {
      NumbersKeeps(y.trace.sendTimes, c, t, y.trace.lastTick, y.clock, now, limit);
    }
    CheckKeeps(SendTimesAfter(y.trace.sendTimes, c, t, {}, now), t, y.trace.lastTick, now, limit);
    TickParts(c, t, incomplete, now);
    SendTimesSplit(y.trace.sendTimes, c, t, k.client, k.resent, now);
  }

  lemma TickParts(c: Cli.Client, t: Cli.Client, incomplete: seq<Cli.Report>, now: Time)
    requires t == Cli.TickKeepalive(c, now).client && (NumbersOne(c, t, now) || t == c)
    ensures var k := Cli.Tick(c, incomplete, now);
            && k.resent == Cli.Overdue(t, now) && k.client.seqNum == t.seqNum
            && k.client.unacked == Cli.TickArq(t, now).unacked && k.client.lastArq == Cli.TickArq(t, now).lastArq
            && k.client.seqNum == Cli.TickArq(t, now).seqNum
            && (t.seqNum == c.seqNum || t.seqNum == c.seqNum + 1)
            && (t.seqNum == c.seqNum + 1 ==> t.seqNum !in k.resent)
  {
    hide Cli.TickKeepalive, Cli.MarkSent;
    Cli.TickChangesLittle(c, incomplete, now);
  }

  lemma StepTimes(y: Sys, step: Step, limit: nat)
    requires Cli.RttLimit(y.client) <= limit && ValidSys(y) && Enabled(y, step) && ArqInv(y, limit)
    ensures ArqInv(Next(y, step), limit)
  {
    hide Srv.Feed, Srv.Finish, Fits, Cli.Feed, Cli.FeedStdin, Cli.OnWinch, Cli.Tick, ArqInv, NumbersOne, Prunes,
         SendTimesAfter;
    var c, now := y.client, step.now;
    match step.event {
      case ClientReceives(p) =>
        if Cli.Feed(c, p, now).outcome.Panicked? {
          ServerKeepsTimes(y, Next(y, step), now, limit);
        } else {
          FeedTimes(c, p, now);
          ClientKeepsTimes(y, Next(y, step), Cli.Feed(c, p, now).client, now, limit);
        }
      case Stdin(buf) =>
        StdinTimes(c, buf, now);
        ClientKeepsTimes(y, Next(y, step), Cli.FeedStdin(c, buf, now).client, now, limit);
      case Winch(cols, rows) =>
        WinchTimes(c, cols, rows, now);
        ClientKeepsTimes(y, Next(y, step), Cli.OnWinch(c, cols, rows, now).client, now, limit);
      case ClientTick(incomplete) => TickTimes(y, incomplete, now, limit);
      case _ => ServerKeepsTimes(y, Next(y, step), now, limit);
    }
  }

  lemma ClientKeepsTimes(y: Sys, z: Sys, d: Cli.Client, now: Time, limit: nat)
    requires limit > 0 && ArqInv(y, limit) && now >= y.clock && (NumbersOne(y.client, d, now) || Prunes(y.client, d))
    requires z.client == d && z.clock == now && z.trace.lastTick == y.trace.lastTick
    requires z.trace.sendTimes == SendTimesAfter(y.trace.sendTimes, y.client, d, {}, now)
    ensures ArqInv(z, limit)
  {
    hide TimesOk, ChecksOk, NumbersOne, Prunes, SendTimesAfter;
    if NumbersOne(y.client, d, now) {
      NumbersKeeps(y.trace.sendTimes, y.client, d, y.trace.lastTick, y.clock, now, limit);
    } else {
      PrunesKeeps(y.trace.sendTimes, y.client, d, y.trace.lastTick, y.clock, now, limit);
    }
  }

  lemma ServerKeepsTimes(y: Sys, z: Sys, now: Time, limit: nat)
    requires ArqInv(y, limit) && now >= y.clock && z.client == y.client && z.clock == now
    requires z.trace.lastTick == y.trace.lastTick && z.trace.sendTimes == y.trace.sendTimes
    ensures ArqInv(z, limit)
  {
  }

  /** All along the run a packet counts as overdue after at most `limit` ms. */
  ghost predicate LimitsBelow(g: Config, steps: seq<Step>, limit: nat)
    requires ValidConfig(g) && Run(g, steps).Some?
    decreases |steps|
  {
    Cli.RttLimit(Run(g, steps).value.client) <= limit && (steps != [] ==> LimitsBelow(g, steps[..|steps| - 1], limit))
  }

  lemma {:induction false} RunTimes(g: Config, steps: seq<Step>, limit: nat)
    requires ValidConfig(g) && Run(g, steps).Some? && LimitsBelow(g, steps, limit)
    ensures ArqInv(Run(g, steps).value, limit)
    decreases |steps|
  {
    hide Enabled, Next, ValidSys, Cli.RttLimit;
    if steps != [] {
      hide ArqInv;
      RunTimes(g, steps[..|steps| - 1], limit);
      StepTimes(Run(g, steps[..|steps| - 1]).value, steps[|steps| - 1], limit);
    } else {
      assert Cli.RttLimit(Init(g).client) > 0;
    }
  }

  lemma {:induction false} NeverAboveASecond(g: Config, steps: seq<Step>)
    requires ValidConfig(g) && Run(g, steps).Some?
    ensures LimitsBelow(g, steps, ARQ_LIMIT)
    decreases |steps|
  {
    hide Enabled, Next, ValidSys, Cli.RttLimit;
    if steps != [] {
      NeverAboveASecond(g, steps[..|steps| - 1]);
    }
  }

  /** A waiting packet was last put on the wire less than `limit` + 100 + d ms ago. */
  lemma RetransmittedWithin(g: Config, steps: seq<Step>, d: nat, k: nat, limit: nat)
    requires ValidConfig(g) && Run(g, steps).Some? && k in Run(g, steps).value.client.unacked
    requires LimitsBelow(g, steps, limit)
    requires var y := Run(g, steps).value; y.clock - y.trace.lastTick <= d
    ensures var y := Run(g, steps).value;
            && k in y.trace.sendTimes && y.trace.sendTimes[k] != []
            && y.clock - y.trace.sendTimes[k][|y.trace.sendTimes[k]| - 1] < limit + Cli.ARQ_INTERVAL + d
            && Spaced(y.trace.sendTimes[k])
  {
    hide Run, LimitsBelow;
    RunTimes(g, steps, limit);
  }

  /**
   * On every run, while the last tick is at most d ms ago, every waiting packet was last put on the
   * wire less than 1100 + d ms ago, and two transmissions of one packet are at least 200 ms apart.
   */
  lemma RetransmittedInTime(g: Config, steps: seq<Step>, d: nat, k: nat)
    requires ValidConfig(g) && Run(g, steps).Some? && k in Run(g, steps).value.client.unacked
    requires var y := Run(g, steps).value; y.clock - y.trace.lastTick <= d
    ensures var y := Run(g, steps).value;
            && k in y.trace.sendTimes && y.trace.sendTimes[k] != []
            && y.clock - y.trace.sendTimes[k][|y.trace.sendTimes[k]| - 1] < ARQ_LIMIT + Cli.ARQ_INTERVAL + d
            && Spaced(y.trace.sendTimes[k])
  {
    hide Run, LimitsBelow;
    NeverAboveASecond(g, steps);
    RetransmittedWithin(g, steps, d, k, ARQ_LIMIT);
  }
}

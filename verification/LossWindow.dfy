/** What the packet-loss window means, on every run. */
module LossWindow {
  import opened Base
  import opened TerminalGrid
  import opened Protocol
  import opened Network
  import MirroredFrame
  import Srv = ServerSession
  import Cli = ClientSession

  /** Slot i of n slots stands for number expected - n + i, and says whether it was received. */
  predicate SlotsTell(w: seq<bool>, expected: nat, received: set<nat>) {
    forall i | 0 <= i < |w| :: w[i] <==> expected - |w| + i in received
  }

  predicate AllBelow(received: set<nat>, expected: nat) {
    forall n | n in received :: n < expected
  }

  /** One slot for each number counted since `from`, the newest 100 of them, each telling the truth. */
  predicate Means(l: Cli.Loss, received: set<nat>, from: nat) {
    && AllBelow(received, l.expected) && SlotsTell(l.window, l.expected, received)
    && if l.expected == 0 then l.window == []
       else from <= l.expected && |l.window| == Min(l.expected - from, 100)
  }

  lemma PushedSlots(w: seq<bool>, expected: nat, received: set<nat>, n: nat)
    requires AllBelow(received, expected) && SlotsTell(w, expected, received) && expected <= n
    ensures SlotsTell(w + Cli.LostSlots(n - expected) + [true], n + 1, received + {n})
  {
  }

  lemma CorrectedSlot(w: seq<bool>, expected: nat, received: set<nat>, n: nat)
    requires SlotsTell(w, expected, received) && n < expected
    ensures var gap := expected - 1 - n;
            SlotsTell(if gap < |w| then w[|w| - 1 - gap := true] else w, expected, received + {n})
  {
  }

  lemma NewestTell(w: seq<bool>, expected: nat, received: set<nat>)
    requires SlotsTell(w, expected, received)
    ensures SlotsTell(Cli.Newest(w), expected, received)
  {
  }

  lemma PushTells(l: Cli.Loss, received: set<nat>, from: nat, n: nat)
    requires Means(l, received, from)
    ensures var p := Cli.PushSlots(l, n);
            && SlotsTell(p.window, p.expected, received + {n}) && AllBelow(received + {n}, p.expected) && p.expected > 0
            && var from' := if l.expected == 0 then n + 1 else from;
               from' <= p.expected && Min(|p.window|, 100) == Min(p.expected - from', 100)
  {
    hide SlotsTell, Cli.LostSlots;
    if l.expected == 0 {
      assert SlotsTell([], n + 1, received + {n}) by { NoSlots(n + 1, received + {n}); }
    } else if n >= l.expected {
      PushedSlots(l.window, l.expected, received, n);
      LostLength(n - l.expected);
    } else {
      CorrectedSlot(l.window, l.expected, received, n);
    }
  }

  lemma NoSlots(expected: nat, received: set<nat>)
    ensures SlotsTell([], expected, received)
  {
  }

  lemma LostLength(n: nat)
    ensures |Cli.LostSlots(n)| == n
  {
  }

  lemma CountMeans(l: Cli.Loss, received: set<nat>, from: nat, n: nat)
    requires Means(l, received, from)
    ensures Means(Cli.CountLoss(l, n), received + {n}, if l.expected == 0 then n + 1 else from)
  {
    hide Cli.PushSlots, SlotsTell, AllBelow;
    var p := Cli.PushSlots(l, n);
    PushTells(l, received, from, n);
    NewestTell(p.window, p.expected, received + {n});
  }

  predicate LossInv(y: Sys) {
    Means(Cli.Loss(y.client.expectedServer, y.client.lossWindow), y.trace.received, y.trace.lossStart)
  }

  lemma ReceiveMeans(y: Sys, p: ServerPacket, now: Time)
    requires ValidSys(y) && LossInv(y)
    ensures LossInv(AfterReceive(y, p, now))
  {
    hide Means, Cli.CountLoss, Cli.Recovering, Cli.Feed, SentBy, Numbered, SendTimesAfter;
    var l := Cli.Loss(y.client.expectedServer, y.client.lossWindow);
    FeedCounts(y.client, p, now);
    if Cli.Recovering(y.client.lastRecv, now) {
      StartOver(p.seqNum);
      CountMeans(Cli.Loss(p.seqNum, []), {}, p.seqNum, p.seqNum);
    } else {
      CountMeans(l, y.trace.received, y.trace.lossStart, p.seqNum);
    }
  }

  lemma StartOver(n: nat)
    ensures Means(Cli.Loss(n, []), {}, n)
  {
  }

  lemma FeedCounts(c: Cli.Client, p: ServerPacket, now: Time)
    requires Cli.ValidClient(c)
    ensures var d := Cli.Feed(c, p, now).client;
            Cli.Loss(d.expectedServer, d.lossWindow) ==
            Cli.LossAfter(Cli.Loss(c.expectedServer, c.lossWindow), c.lastRecv, p.seqNum, now)
  {
    hide Cli.Feed, Cli.LossAfter, LocalEcho.Reconcile, Cli.RttAfter, MirroredFrame.WithBanner;
    Cli.FeedChangesLittle(c, p, now);
  }

  predicate SameLoss(c: Cli.Client, d: Cli.Client) {
    d.expectedServer == c.expectedServer && d.lossWindow == c.lossWindow
  }

  lemma StdinKeepsLoss(c: Cli.Client, buf: seq<byte>, now: Time)
    requires Cli.ValidClient(c)
    ensures SameLoss(c, Cli.FeedStdin(c, buf, now).client)
  {
    hide LocalEcho.Predict, EscapeFilter.Filter, Cli.CommandActions, Cli.Dirtying, Cli.Printable;
  }

  lemma WinchKeepsLoss(c: Cli.Client, cols: u16, rows: u16, now: Time)
    requires Cli.ValidClient(c)
    ensures SameLoss(c, Cli.OnWinch(c, cols, rows, now).client)
  {
    hide LocalEcho.Abort;
  }

  lemma TickKeepsLoss(c: Cli.Client, incomplete: seq<Cli.Report>, now: Time)
    ensures SameLoss(c, Cli.Tick(c, incomplete, now).client)
  {
    hide Cli.Tick, Cli.MarkSent, Cli.Overdue;
    Cli.TickChangesLittle(c, incomplete, now);
  }

  lemma StepMeans(y: Sys, step: Step)
    requires ValidSys(y) && Enabled(y, step) && LossInv(y)
    ensures LossInv(Next(y, step))
  {
    hide Srv.Feed, Srv.Finish, Fits, Cli.Feed, Cli.FeedStdin, Cli.OnWinch, Cli.Tick, Means;
    match step.event {
      case ClientReceives(p) => ReceiveMeans(y, p, step.now);
      case Stdin(buf) => StdinKeepsLoss(y.client, buf, step.now);
      case Winch(cols, rows) => WinchKeepsLoss(y.client, cols, rows, step.now);
      case ClientTick(incomplete) => TickKeepsLoss(y.client, incomplete, step.now);
      case _ =>
    }
  }

  lemma {:induction false} RunMeans(g: Config, steps: seq<Step>)
    requires ValidConfig(g) && Run(g, steps).Some?
    ensures LossInv(Run(g, steps).value)
    decreases |steps|
  {
    hide Enabled, Next, ValidSys;
    if steps != [] {
      hide LossInv;
      RunMeans(g, steps[..|steps| - 1]);
      StepMeans(Run(g, steps[..|steps| - 1]).value, steps[|steps| - 1]);
    }
  }

  function FromEnd(w: seq<bool>, gap: nat): (r: bool)
    requires gap < |w|
  {
    w[|w| - 1 - gap]
  }

  /**
   * On every run, under any gaps, late arrivals and duplicates: the window has one slot for each
   * number counted since the last outage, at most the newest 100, and the slot `gap` places from its
   * end is true exactly when number expectedServer - 1 - gap was received since then.
   */
  lemma LossWindowMeansReceived(g: Config, steps: seq<Step>)
    requires ValidConfig(g) && Run(g, steps).Some?
    ensures var y := Run(g, steps).value;
            var w, expected := y.client.lossWindow, y.client.expectedServer;
            && |w| <= 100
            && (expected > 0 ==> |w| == Min(expected - y.trace.lossStart, 100))
            && forall gap: nat | gap < |w| :: FromEnd(w, gap) <==> expected - 1 - gap in y.trace.received
  {
    hide Run;
    RunMeans(g, steps);
  }
}

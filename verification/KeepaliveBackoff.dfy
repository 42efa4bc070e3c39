/** The keepalive interval on every run, and why the documented back-off ladder is not climbed. */
module KeepaliveBackoff {
  import opened Base
  import opened TerminalGrid
  import opened Protocol
  import opened Network
  import MirroredFrame
  import Srv = ServerSession
  import Cli = ClientSession

  /** How the interval in force was chosen: for the silence seen by the tick that raised the flag. */
  predicate ChosenFor(interval: nat, silence: int) {
    silence > Cli.OUTAGE && interval == Cli.Backoff(silence)
  }

  /** The flag tells whether the last tick saw an outage; the interval was chosen for at most `longest`. */
  ghost predicate BackoffInv(y: Sys, longest: int) {
    var c := y.client;
    && c.lastRecv <= y.clock && y.trace.lastTick <= y.clock
    && (!c.reconnecting ==> c.keepaliveInterval == Cli.KEEPALIVE && y.trace.lastTick - c.lastRecv <= Cli.OUTAGE)
    && (c.reconnecting ==> y.trace.lastTick - c.lastRecv > Cli.OUTAGE
                           && exists s :: s <= longest && ChosenFor(c.keepaliveInterval, s))
  }

  lemma FeedBackoff(c: Cli.Client, p: ServerPacket, now: Time)
    requires Cli.ValidClient(c)
    ensures var d := Cli.Feed(c, p, now).client;
            if p.seqNum > c.ackSeq then d.lastRecv == now && !d.reconnecting && d.keepaliveInterval == Cli.KEEPALIVE
            else d.lastRecv == c.lastRecv && d.reconnecting == c.reconnecting
                 && d.keepaliveInterval == c.keepaliveInterval
  {
    hide Cli.Feed, Cli.LossAfter, LocalEcho.Reconcile, Cli.RttAfter, MirroredFrame.WithBanner;
    Cli.FeedChangesLittle(c, p, now);
  }

  lemma TickBackoff(c: Cli.Client, incomplete: seq<Cli.Report>, now: Time)
    ensures var d := Cli.Tick(c, incomplete, now).client;
            var silence := Since(now, c.lastRecv);
            && d.lastRecv == c.lastRecv && d.reconnecting == (silence > Cli.OUTAGE)
            && d.keepaliveInterval
               == if c.reconnecting == d.reconnecting then c.keepaliveInterval else Cli.Backoff(silence)
  {
    hide Cli.TickKeepalive, Cli.TickArq, Cli.TickNack, Cli.TickTelemetry, Cli.Backoff, MirroredFrame.WithBanner;
    var t := Cli.TickKeepalive(c, now).client;
    var c2 := Cli.TickArq(t, now);
    var c3 := Cli.TickBanner(c2, now).client;
    KeepaliveKeepsFlag(c, now);
    ArqKeepsFlag(t, now);
    Cli.TelemetryChangesLittle(c3, now);
    Cli.TickNackChangesLittle(Cli.TickTelemetry(c3, now).client, incomplete, now);
  }

  lemma KeepaliveKeepsFlag(c: Cli.Client, now: Time)
    ensures var t := Cli.TickKeepalive(c, now).client;
            t.lastRecv == c.lastRecv && t.reconnecting == c.reconnecting && t.keepaliveInterval == c.keepaliveInterval
  {
  }

  lemma ArqKeepsFlag(c: Cli.Client, now: Time)
    ensures var t := Cli.TickArq(c, now);
            t.lastRecv == c.lastRecv && t.reconnecting == c.reconnecting && t.keepaliveInterval == c.keepaliveInterval
  {
  }

  lemma SendsKeepBackoff(c: Cli.Client, buf: seq<byte>, cols: u16, rows: u16, now: Time)
    requires Cli.ValidClient(c)
    ensures var d := Cli.FeedStdin(c, buf, now).client;
            d.lastRecv == c.lastRecv && d.reconnecting == c.reconnecting && d.keepaliveInterval == c.keepaliveInterval
    ensures var d := Cli.OnWinch(c, cols, rows, now).client;
            d.lastRecv == c.lastRecv && d.reconnecting == c.reconnecting && d.keepaliveInterval == c.keepaliveInterval
  {
    hide LocalEcho.Predict, LocalEcho.Abort, EscapeFilter.Filter, Cli.CommandActions;
  }

  predicate PromptStep(y: Sys, step: Step, d: nat) {
    step.event.ClientTick? ==> step.now - y.trace.lastTick <= d
  }

  lemma StepBackoff(y: Sys, step: Step, d: nat)
    requires ValidSys(y) && Enabled(y, step) && PromptStep(y, step, d) && BackoffInv(y, Cli.OUTAGE + d)
    ensures BackoffInv(Next(y, step), Cli.OUTAGE + d)
  {
    hide Srv.Feed, Srv.Finish, Fits, Cli.Feed, Cli.FeedStdin, Cli.OnWinch, Cli.Tick, Cli.Backoff, ChosenFor;
    var c, now := y.client, step.now;
    match step.event {
      case ClientReceives(p) => FeedBackoff(c, p, now);
      case Stdin(buf) => SendsKeepBackoff(c, buf, 0, 0, now);
      case Winch(cols, rows) => SendsKeepBackoff(c, [], cols, rows, now);
      case ClientTick(incomplete) =>
        TickBackoff(c, incomplete, now);
        if !c.reconnecting && now - c.lastRecv > Cli.OUTAGE {
          assert ChosenFor(Cli.Backoff(Since(now, c.lastRecv)), now - c.lastRecv) by { Chosen(now - c.lastRecv); }
        }
      case _ =>
    }
  }

  lemma Chosen(silence: nat)
    requires silence > Cli.OUTAGE
    ensures ChosenFor(Cli.Backoff(silence), silence)
  {
  }

  /** Consecutive client ticks of the run are at most `d` ms apart. */
  ghost predicate Prompt(g: Config, steps: seq<Step>, d: nat)
    requires ValidConfig(g) && Run(g, steps).Some?
    decreases |steps|
  {
    steps != [] ==>
      var before := steps[..|steps| - 1];
      Prompt(g, before, d) && PromptStep(Run(g, before).value, steps[|steps| - 1], d)
  }

  lemma {:induction false} RunBackoff(g: Config, steps: seq<Step>, d: nat)
    requires ValidConfig(g) && Run(g, steps).Some? && Prompt(g, steps, d)
    ensures BackoffInv(Run(g, steps).value, Cli.OUTAGE + d)
    decreases |steps|
  {
    hide Enabled, Next, ValidSys, PromptStep;
    if steps != [] {
      hide BackoffInv;
      RunBackoff(g, steps[..|steps| - 1], d);
      StepBackoff(Run(g, steps[..|steps| - 1]).value, steps[|steps| - 1], d);
    }
  }

  /**
   * With ticks less than ten seconds apart the interval is 2 s while no outage shows and 5 s during
   * one, however long it lasts: it is chosen once, by the tick that raises the flag.
   */
  lemma LadderStopsAtFiveSeconds(g: Config, steps: seq<Step>, d: nat)
    requires ValidConfig(g) && Run(g, steps).Some? && Prompt(g, steps, d) && d < 10000
    ensures var c := Run(g, steps).value.client;
            c.keepaliveInterval == if c.reconnecting then 5000 else 2000
  {
    hide Run, Prompt;
    RunBackoff(g, steps, d);
  }

  /** The documented ladder, by the silence. */
  function Ladder(silence: int): (ms: nat) {
    if silence < 15000 then 5000
    else if silence < 60000 then 15000
    else if silence < 180000 then 60000
    else if silence < 600000 then 120000
    else 180000
  }

  /**
   * However far apart the ticks, during an outage the interval in force is the ladder's for the silence seen
   * by one tick, the one that raised the flag: more than 5 s, and no more than 5 s and one tick.
   */
  lemma OneStepOfTheLadder(g: Config, steps: seq<Step>, d: nat)
    requires ValidConfig(g) && Run(g, steps).Some? && Prompt(g, steps, d)
    ensures var c := Run(g, steps).value.client;
            if c.reconnecting then exists s :: 5000 < s <= 5000 + d && c.keepaliveInterval == Ladder(s)
            else c.keepaliveInterval == 2000
  {
    hide Run, Prompt;
    RunBackoff(g, steps, d);
    var c := Run(g, steps).value.client;
    if c.reconnecting {
      var s :| s <= Cli.OUTAGE + d && ChosenFor(c.keepaliveInterval, s);
      assert c.keepaliveInterval == Ladder(s);
    }
  }

  // ----- a tick never takes the banner down -----

  /** While the flag is up the last tick already saw an outage, and nothing newer has arrived since. */
  predicate FlagInv(y: Sys) {
    && y.client.lastRecv <= y.clock && y.trace.lastTick <= y.clock
    && (y.client.reconnecting ==> y.trace.lastTick - y.client.lastRecv > Cli.OUTAGE)
  }

  lemma StepFlag(y: Sys, step: Step)
    requires ValidSys(y) && Enabled(y, step) && FlagInv(y)
    ensures FlagInv(Next(y, step))
  {
    hide Srv.Feed, Srv.Finish, Fits, Cli.Feed, Cli.FeedStdin, Cli.OnWinch, Cli.Tick, Cli.Backoff;
    var c, now := y.client, step.now;
    match step.event {
      case ClientReceives(p) => FeedBackoff(c, p, now);
      case Stdin(buf) => SendsKeepBackoff(c, buf, 0, 0, now);
      case Winch(cols, rows) => SendsKeepBackoff(c, [], cols, rows, now);
      case ClientTick(incomplete) => TickBackoff(c, incomplete, now);
      case _ =>
    }
  }

  lemma {:induction false} RunFlag(g: Config, steps: seq<Step>)
    requires ValidConfig(g) && Run(g, steps).Some?
    ensures FlagInv(Run(g, steps).value)
    decreases |steps|
  {
    hide Enabled, Next, ValidSys;
    if steps != [] {
      hide FlagInv;
      RunFlag(g, steps[..|steps| - 1]);
      StepFlag(Run(g, steps[..|steps| - 1]).value, steps[|steps| - 1]);
    }
  }

  /** On every run a tick only ever raises the reconnecting flag, so only a packet takes the banner down. */
  lemma TickNeverLowersTheFlag(g: Config, steps: seq<Step>, incomplete: seq<Cli.Report>, now: Time)
    requires ValidConfig(g) && Run(g, steps).Some? && now >= Run(g, steps).value.clock
    ensures var c := Run(g, steps).value.client;
            c.reconnecting ==> Cli.Tick(c, incomplete, now).client.reconnecting
  {
    hide Run, Cli.Tick, Cli.Backoff;
    RunFlag(g, steps);
    TickBackoff(Run(g, steps).value.client, incomplete, now);
  }
}

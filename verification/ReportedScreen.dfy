/** Which screen the server sends: on every run the one last reported, by the terminal or after a resize. */
module ReportedScreen {
  import opened Base
  import opened TerminalGrid
  import opened Protocol
  import opened Network
  import Srv = ServerSession
  import Cli = ClientSession

  // ----- the screen -----

  predicate Resizes(items: seq<Srv.Item>) {
    exists i | 0 <= i < |items| :: items[i].payload.Resize?
  }

  /** Output of the terminal reports a screen, and so does a packet whose arrival makes the server resize it. */
  function ReportedAfter(y: Sys, step: Step, screen: Grid): (r: Grid) {
    match step.event
    case PtyOutput(_, reported) => reported
    case ServerReceives(p, env) => if Resizes(Srv.Feed(y.server, p, step.now, env).items) then env.resized else screen
    case _ => screen
  }

  /** The screen reported last, or the first one. */
  ghost function Reported(y: Sys, steps: seq<Step>): (r: Grid)
    requires ValidSys(y) && RunFrom(y, steps).Some?
    decreases |steps|
  {
    if steps == [] then y.server.screen
    else
      var before := steps[..|steps| - 1];
      ReportedAfter(RunFrom(y, before).value, steps[|steps| - 1], Reported(y, before))
  }

  lemma OneMoreItem(items: seq<Srv.Item>)
    requires items != []
    ensures Resizes(items) <==> Resizes(items[..|items| - 1]) || items[|items| - 1].payload.Resize?
  {
    var before := items[..|items| - 1];
    if Resizes(before) {
      var i :| 0 <= i < |before| && before[i].payload.Resize?;
      assert items[i].payload.Resize?;
    }
  }

  lemma {:induction false} ItemsResize(s: Srv.Server, items: seq<Srv.Item>, resized: Grid)
    ensures Srv.ProcessItems(s, items, resized).server.screen == if Resizes(items) then resized else s.screen
    decreases |items|
  {
    if items != [] {
      hide Resizes;
      ItemsResize(s, items[..|items| - 1], resized);
      OneMoreItem(items);
    }
  }

  lemma SyncKeepsScreen(s: Srv.Server, now: Time, echo: bool)
    ensures var r := Srv.CheckSync(s, now, echo);
            r.server.screen == s.screen && (r.job.Some? ==> r.job.value.current == s.screen)
  {
    hide Srv.PruneHistory, Srv.ReferenceFor, Record;
  }

  /** An arriving packet, of whatever session: the screen afterwards, and the job that carries it. */
  lemma FeedScreen(s: Srv.Server, p: ClientPacket, now: Time, env: Srv.Env)
    ensures var f := Srv.Feed(s, p, now, env);
            && f.server.screen == (if Resizes(f.items) then env.resized else s.screen)
            && (f.job.Some? ==> f.job.value.current == f.server.screen)
            && (p.sessionId == 0 ==> !Resizes(f.items))
  {
    hide Srv.CheckSync, Srv.ProcessItems, Srv.Contiguous, Srv.Remaining;
    var s1 := s.(lastRecv := now);
    if p.sessionId == 0 {
      SyncKeepsScreen(Srv.Reset(s, p, now), now, env.echo);
    } else if Srv.IsTransient(p) {
      SyncKeepsScreen(if p.ack > s.clientAck then s1.(clientAck := p.ack) else s1, now, env.echo);
    } else if p.seqNum == s.expected {
      ItemsResize(Srv.Advance(s1, p), Srv.Released(s1, p), env.resized);
      SyncKeepsScreen(Srv.ProcessItems(Srv.Advance(s1, p), Srv.Released(s1, p), env.resized).server, now, env.echo);
    }
  }

  /** The numbers recorded in a step stand for the screen after it. */
  predicate RecordsScreen(y: Sys, z: Sys) {
    forall n | n in z.trace.recorded && n !in y.trace.recorded :: z.trace.recorded[n] == z.server.screen
  }

  lemma StepScreen(y: Sys, step: Step)
    requires ValidSys(y) && Enabled(y, step)
    ensures var z := Next(y, step);
            z.server.screen == ReportedAfter(y, step, y.server.screen) && RecordsScreen(y, z)
  {
    hide Srv.Feed, Srv.CheckSync, ValidSys, AfterReceive, AfterStdin, AfterClient, AfterTick, Resizes;
    match step.event
    case ServerReceives(p, env) => FeedScreen(y.server, p, step.now, env);
    case HandshakeArrives(p, env) => FeedScreen(y.server, p, step.now, env);
    case ServerTick(echo) => SyncKeepsScreen(y.server, step.now, echo);
    case ClientReceives(p) => ClientKeepsScreen(y, step);
    case Stdin(buf) => ClientKeepsScreen(y, step);
    case Winch(cols, rows) => ClientKeepsScreen(y, step);
    case ClientTick(incomplete) => ClientKeepsScreen(y, step);
    case PtyOutput(count, screen) =>
    case ServerShutdown =>
  }

  lemma ClientKeepsScreen(y: Sys, step: Step)
    requires ValidSys(y) && Enabled(y, step)
    requires step.event.ClientReceives? || step.event.Stdin? || step.event.Winch? || step.event.ClientTick?
    ensures Next(y, step).server == y.server && Next(y, step).trace.recorded == y.trace.recorded
  {
    hide Cli.Feed, Cli.FeedStdin, Cli.OnWinch, Cli.Tick;
  }

  /** On every run the server's screen is the one reported last. */
  lemma {:induction false} ScreenIsReported(g: Config, steps: seq<Step>)
    requires ValidConfig(g) && Run(g, steps).Some? && ValidSys(Init(g))
    ensures Run(g, steps).value.server.screen == Reported(Init(g), steps)
    decreases |steps|
  {
    if steps != [] {
      hide ValidSys, Enabled, Next, ReportedAfter, RecordsScreen;
      var before := steps[..|steps| - 1];
      ScreenIsReported(g, before);
      StepScreen(Run(g, before).value, steps[|steps| - 1]);
    }
  }

  /** On every run each frame is recorded with the screen reported last when it was queued. */
  lemma FrameShowsTheReport(g: Config, steps: seq<Step>, n: nat)
    requires ValidConfig(g) && Run(g, steps).Some? && ValidSys(Init(g)) && steps != []
    requires n in Run(g, steps).value.trace.recorded
    requires n !in Run(g, steps[..|steps| - 1]).value.trace.recorded
    ensures Run(g, steps).value.trace.recorded[n] == Reported(Init(g), steps)
  {
    hide ValidSys, Enabled, Next, ReportedAfter, Reported;
    ScreenIsReported(g, steps);
    StepScreen(Run(g, steps[..|steps| - 1]).value, steps[|steps| - 1]);
  }

  // ----- the numbers -----

  /** The numbers of the packets sent and the frame queued, in order. */
  function NumbersOf(actions: seq<Srv.ServerAction>): (r: seq<nat>) {
    if actions == [] then []
    else
      NumbersOf(actions[..|actions| - 1]) +
      match actions[|actions| - 1]
      case SendPacket(p) => [p.seqNum]
      case OffloadDiffJob(j) => [j.seqNum]
      case ResendFragments(_, _) => []
      case Panic => []
  }

  /** Every number from the one after `from` to `to`, in order. */
  function Following(from: nat, to: nat): (r: seq<nat>) {
    if to <= from then [] else Following(from, to - 1) + [to]
  }

  lemma NumbersJoin(a: seq<Srv.ServerAction>, b: seq<Srv.ServerAction>)
    requires |b| <= 1
    ensures NumbersOf(a + b) == NumbersOf(a) + NumbersOf(b)
  {
    if b == [] {
      assert a + b == a;
    } else {
      assert (a + b)[..|a|] == a && NumbersOf(b[..0]) == [];
    }
  }

  lemma ItemNumbered(s: Srv.Server, item: Srv.Item, resized: Grid)
    ensures var p := Srv.ProcessItem(s, item, resized);
            && |p.replies| <= 1 && p.server.seqNum <= s.seqNum + 1
            && NumbersOf(p.replies) == (if p.server.seqNum == s.seqNum then [] else [s.seqNum + 1])
            && p.server.seqNum >= s.seqNum
  {
    var replies := Srv.ProcessItem(s, item, resized).replies;
    if |replies| == 1 {
      assert NumbersOf(replies[..0]) == [];
    }
  }

  lemma {:induction false} ItemsNumbered(s: Srv.Server, items: seq<Srv.Item>, resized: Grid)
    ensures var p := Srv.ProcessItems(s, items, resized);
            p.server.seqNum >= s.seqNum && NumbersOf(p.replies) == Following(s.seqNum, p.server.seqNum)
    decreases |items|
  {
    if items != [] {
      hide Srv.ProcessItem, NumbersOf;
      var before, last := items[..|items| - 1], items[|items| - 1];
      ItemsNumbered(s, before, resized);
      var p := Srv.ProcessItems(s, before, resized);
      ItemNumbered(p.server, last, resized);
      NumbersJoin(p.replies, Srv.ProcessItem(p.server, last, resized).replies);
    } else {
      assert NumbersOf([]) == [];
    }
  }

  predicate NumberedFed(from: nat, f: Srv.Fed) {
    f.server.seqNum >= from && NumbersOf(f.Actions()) == Following(from, f.server.seqNum)
  }

  lemma FinishNumbered(from: nat, s: Srv.Server, replies: seq<Srv.ServerAction>, items: seq<Srv.Item>, now: Time,
                       echo: bool)
    requires from <= s.seqNum && NumbersOf(replies) == Following(from, s.seqNum)
    ensures NumberedFed(from, Srv.Finish(s, replies, items, now, echo))
  {
    hide Srv.PruneHistory, Srv.ReferenceFor, Record;
    var job := Srv.CheckSync(s, now, echo).job;
    NumbersJoin(replies, Srv.JobActions(job));
    if job.Some? {
      assert Srv.JobActions(job)[..0] == [];
    }
  }

  lemma NothingNumbered(s: Srv.Server)
    ensures NumberedFed(s.seqNum, Srv.Fed(s, [], [], None))
  {
    assert [] + Srv.JobActions(None) == [];
  }

  lemma NoReply(from: nat)
    ensures NumbersOf([]) == [] == Following(from, from)
  {
  }

  lemma OneReply(from: nat, a: Srv.ServerAction)
    ensures NumbersOf([a]) == (match a
                               case SendPacket(p) => [p.seqNum]
                               case OffloadDiffJob(j) => [j.seqNum]
                               case ResendFragments(_, _) => []
                               case Panic => [])
    ensures Following(from, from + 1) == [from + 1]
  {
    assert Following(from, from) == [];
    assert NumbersOf([a][..0]) == [];
  }

  lemma HandshakeNumbered(s: Srv.Server, p: ClientPacket, now: Time, env: Srv.Env)
    ensures NumberedFed(s.seqNum, Srv.FeedHandshake(s, p, now, env))
  {
    hide Srv.Finish, NumbersOf, Following, NumberedFed;
    var ack := Srv.SendPacket(ServerPacket(s.seqNum + 1, p.seqNum, HandshakeAck(s.sessionId)));
    NothingNumbered(s);
    OneReply(s.seqNum, ack);
    FinishNumbered(s.seqNum, Srv.Reset(s, p, now), [ack], [], now, env.echo);
  }

  lemma TransientNumbered(s: Srv.Server, p: ClientPacket, now: Time, env: Srv.Env)
    ensures NumberedFed(s.seqNum, Srv.FeedTransient(s, p, now, env))
  {
    hide Srv.Finish, NumbersOf, Following, NumberedFed;
    var t := if p.ack > s.clientAck then s.(clientAck := p.ack) else s;
    NoReply(s.seqNum);
    if p.payload.FragmentNack? {
      var resend := Srv.ResendFragments(p.payload.frameSeq, p.payload.receivedMask);
      OneReply(s.seqNum, resend);
      FinishNumbered(s.seqNum, t, [resend], [], now, env.echo);
    } else {
      FinishNumbered(s.seqNum, t, [], [], now, env.echo);
    }
  }

  lemma InOrderNumbered(s: Srv.Server, p: ClientPacket, now: Time, env: Srv.Env)
    ensures NumberedFed(s.seqNum, Srv.FeedInOrder(s, p, now, env))
  {
    hide Srv.Finish, NumbersOf, Following, NumberedFed, Srv.ProcessItems, Srv.Released, Srv.Remaining;
    ItemsNumbered(Srv.Advance(s, p), Srv.Released(s, p), env.resized);
    var done := Srv.ProcessItems(Srv.Advance(s, p), Srv.Released(s, p), env.resized);
    FinishNumbered(s.seqNum, done.server, done.replies, Srv.Released(s, p), now, env.echo);
  }

  /** Whatever arrives, the server sends and queues under the next numbers in turn, the frame last. */
  lemma NumberedInTurn(s: Srv.Server, p: ClientPacket, now: Time, env: Srv.Env)
    ensures var f := Srv.Feed(s, p, now, env);
            f.server.seqNum >= s.seqNum && NumbersOf(f.Actions()) == Following(s.seqNum, f.server.seqNum)
  {
    hide Srv.FeedHandshake, Srv.FeedTransient, Srv.FeedInOrder, NumbersOf, Following;
    var s1 := s.(lastRecv := now);
    HandshakeNumbered(s, p, now, env);
    NothingNumbered(s);
    NothingNumbered(s1);
    NothingNumbered(s1.(outOfOrder := s.outOfOrder[p.seqNum := p.payload]));
    TransientNumbered(s1, p, now, env);
    InOrderNumbered(s1, p, now, env);
  }

  /** Packets of another session change nothing and are not answered. */
  lemma StrangersAreIgnored(s: Srv.Server, p: ClientPacket, now: Time, env: Srv.Env)
    requires p.sessionId != 0 && p.sessionId != s.sessionId
    ensures var f := Srv.Feed(s, p, now, env); f.server == s && f.Actions() == [] && f.items == []
  {
  }
}

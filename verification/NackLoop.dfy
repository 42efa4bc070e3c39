/**
 * The selective-resend loop across the link: the client's tick asks for what its buffer lacks, the server
 * answers from its cache, and the fragments that arrive complete the frame.
 */
module NackLoop {
  import opened Base
  import opened TerminalGrid
  import opened Protocol
  import opened Network
  import opened Fragmentation
  import opened Reassembly
  import opened ClientWire
  import opened InputChannel
  import opened InputRuns
  import opened ScreenRuns
  import opened Transport
  import Srv = ServerSession
  import Cli = ClientSession

  // ----- the buffer's own invariant on the link -----

  lemma LinkStepBuffer(c: Codec, l: Link, s: LinkStep)
    requires ValidSys(l.sys) && LinkEnabled(c, l, s) && BufferInv(l.frames)
    ensures BufferInv(LinkNext(c, l, s).frames)
  {
    hide Insert, BufferInv, AfterReceive, LinkEnabled, Next;
    match s {
      case FragmentArrives(now, f, wireLen) => InsertKeepsBufferInv(l.frames, f, wireLen);
      case Elsewhere(step) =>
    }
  }

  lemma {:induction false} LinkBuffer(c: Codec, l: Link, steps: seq<LinkStep>)
    requires ValidSys(l.sys) && BufferInv(l.frames) && LinkFrom(c, l, steps).Some?
    ensures BufferInv(LinkFrom(c, l, steps).value.frames)
    decreases |steps|
  {
    hide LinkEnabled, LinkNext, ValidSys, BufferInv;
    if steps != [] {
      LinkBuffer(c, l, steps[..|steps| - 1]);
      LinkStepBuffer(c, LinkFrom(c, l, steps[..|steps| - 1]).value, steps[|steps| - 1]);
    }
  }

  // ----- fetching what is missing -----

  /** The arrivals as steps of the link, at these times. */
  function Fetch(run: seq<Arrival>, times: seq<Time>): (steps: seq<LinkStep>)
    requires |run| == |times|
  {
    seq(|run|, i requires 0 <= i < |run| => FragmentArrives(times[i], run[i].fragment, run[i].wireLen))
  }

  /** The fragments are those of `p`, and none arrives in the past. */
  predicate Fetched(c: Codec, l: Link, p: ServerPacket, run: seq<Arrival>, times: seq<Time>) {
    && p in l.sys.toClient && FitsCount(c, l.sys.toClient) && |run| == |times|
    && (forall i | 0 <= i < |run| :: CutFrom(c, p, run[i].fragment) && times[i] >= l.sys.clock)
  }

  /** One fragment that completes nothing changes the buffer alone. */
  lemma QuietArrival(c: Codec, l: Link, p: ServerPacket, f: Fragment, wireLen: nat, now: Time)
    requires ValidSys(l.sys) && p in l.sys.toClient && FitsCount(c, l.sys.toClient) && CutFrom(c, p, f)
             && now >= l.sys.clock
    requires Insert(l.frames, f, wireLen).out.None?
    ensures var s := FragmentArrives(now, f, wireLen);
            && LinkEnabled(c, l, s) && PacketStep(c, l, s) == []
            && LinkNext(c, l, s) == Link(l.sys, Insert(l.frames, f, wireLen).frames)
  {
    hide Insert, FitsCount, CutFrom;
    assert p in l.sys.toClient && CutFrom(c, p, f);
  }

  /** The fragment that completes `p` hands it to the client. */
  lemma CompletingArrival(c: Codec, l: Link, p: ServerPacket, f: Fragment, wireLen: nat, now: Time)
    requires Inverse(c) && LinkInv(c, l) && p in l.sys.toClient && FitsCount(c, l.sys.toClient) && CutFrom(c, p, f)
    requires now >= l.sys.clock && Insert(l.frames, f, wireLen).out.Some?
    ensures var s := FragmentArrives(now, f, wireLen);
            && LinkEnabled(c, l, s) && PacketStep(c, l, s) == [Step(now, ClientReceives(p))]
            && LinkNext(c, l, s).sys == AfterReceive(l.sys, p, now)
  {
    hide Insert, FitsCount, CutFrom, Inverse, ScreenInv, Messages, Agrees, AfterReceive;
    SealsOnce(l.sys);
    OpensToAPacket(c, l.sys.toClient, l.frames, f, wireLen, p);
    assert p in l.sys.toClient && CutFrom(c, p, f);
  }

  /** Short of the last fragment, only the buffer fills up. */
  lemma {:induction false} FetchingIsQuiet(c: Codec, l: Link, p: ServerPacket, run: seq<Arrival>, times: seq<Time>,
                                           j: nat)
    requires Inverse(c) && LinkInv(c, l) && BufferInv(l.frames) && Fetched(c, l, p, run, times) && j < |run|
    requires FillsIn(l.frames, Messages(c, l.sys.toClient), p.seqNum, run)
    ensures var steps := Fetch(run, times)[..j];
            && LinkFrom(c, l, steps) == Some(Link(l.sys, Deliver(l.frames, run[..j])))
            && PacketSteps(c, l, steps) == []
    decreases j
  {
    hide LinkInv, BufferInv, FillsIn, Messages, Inverse, Insert, LinkEnabled, LinkNext, PacketStep, FitsCount,
         CutFrom, ValidSys;
    LinkInvValid(c, l);
    var steps := Fetch(run, times)[..j];
    if j == 0 {
      assert steps == [] && run[..0] == [];
    } else {
      FetchingIsQuiet(c, l, p, run, times, j - 1);
      assert steps[..j - 1] == Fetch(run, times)[..j - 1];
      assert run[..j][..j - 1] == run[..j - 1];
      OutputIsQuiet(c, l, p, run, j);
      QuietArrival(c, Link(l.sys, Deliver(l.frames, run[..j - 1])), p, run[j - 1].fragment, run[j - 1].wireLen,
                   times[j - 1]);
    }
  }

  lemma OutputIsQuiet(c: Codec, l: Link, p: ServerPacket, run: seq<Arrival>, j: nat)
    requires LinkInv(c, l) && BufferInv(l.frames) && 0 < j < |run| && FitsCount(c, l.sys.toClient)
    requires FillsIn(l.frames, Messages(c, l.sys.toClient), p.seqNum, run)
    ensures Insert(Deliver(l.frames, run[..j - 1]), run[j - 1].fragment, run[j - 1].wireLen).out.None?
  {
    hide BufferInv, FillsIn, Messages, Insert, FitsCount, ScreenInv, Agrees, Deliver;
    MessagesSealed(c, l.sys.toClient);
    FillingInIsQuiet(l.frames, Messages(c, l.sys.toClient), p.seqNum, run, j);
    assert run[..j][..j - 1] == run[..j - 1];
  }

  /** What fetching does for the sessions: the client receives the packet, once, with the last fragment. */
  ghost predicate Delivers(c: Codec, l: Link, p: ServerPacket, steps: seq<LinkStep>, now: Time)
    requires ValidSys(l.sys)
  {
    && LinkFrom(c, l, steps).Some? && PacketSteps(c, l, steps) == [Step(now, ClientReceives(p))]
    && LinkFrom(c, l, steps).value.sys == AfterReceive(l.sys, p, now)
  }

  lemma FetchingDelivers(c: Codec, l: Link, p: ServerPacket, run: seq<Arrival>, times: seq<Time>)
    requires Inverse(c) && LinkInv(c, l) && BufferInv(l.frames) && Fetched(c, l, p, run, times)
    requires FillsIn(l.frames, Messages(c, l.sys.toClient), p.seqNum, run) && run != []
    requires Output(l.frames, run).Some?
    ensures Delivers(c, l, p, Fetch(run, times), times[|run| - 1])
  {
    hide LinkInv, BufferInv, FillsIn, Messages, Inverse, Insert, LinkEnabled, LinkNext, PacketStep, FitsCount,
         CutFrom, ValidSys, AfterReceive, Deliver;
    LinkInvValid(c, l);
    var steps, j := Fetch(run, times), |run| - 1;
    FetchingIsQuiet(c, l, p, run, times, j);
    var m := Link(l.sys, Deliver(l.frames, run[..j]));
    BufferedInv(c, l, p, run, j);
    CompletingArrival(c, m, p, run[j].fragment, run[j].wireLen, times[j]);
    assert steps[..|steps| - 1] == steps[..j];
  }

  lemma BufferedInv(c: Codec, l: Link, p: ServerPacket, run: seq<Arrival>, j: nat)
    requires LinkInv(c, l) && BufferInv(l.frames) && j < |run| && FitsCount(c, l.sys.toClient)
    requires FillsIn(l.frames, Messages(c, l.sys.toClient), p.seqNum, run)
    ensures LinkInv(c, Link(l.sys, Deliver(l.frames, run[..j])))
  {
    hide BufferInv, FillsIn, Messages, Insert, FitsCount, ScreenInv, Agrees, Deliver, ValidSys;
    MessagesSealed(c, l.sys.toClient);
    PrefixAgrees(l.frames, Messages(c, l.sys.toClient), p.seqNum, run, j);
  }

  // ----- the tick asks -----

  /** The 40 ms check is due, and the frame was not asked for during the last 100 ms. */
  predicate Asks(c: Cli.Client, r: Cli.Report, now: Time) {
    Since(now, c.lastNack) >= 40 && NackDue(c, r, now)
  }

  /** The client when a tick comes to its NACK check. */
  function BeforeNacks(c: Cli.Client, now: Time): (r: Cli.Client) {
    Cli.TickTelemetry(Cli.TickBanner(Cli.TickArq(Cli.TickKeepalive(c, now).client, now), now).client, now).client
  }

  lemma NackStateKept(c: Cli.Client, now: Time)
    ensures var t := BeforeNacks(c, now);
            t.nacked == c.nacked && t.lastNack == c.lastNack
  {
    hide Cli.TickKeepalive, Cli.TickArq, Cli.TickBanner, Cli.TickTelemetry;
    var t := Cli.TickKeepalive(c, now).client;
    var u := Cli.TickArq(t, now);
    EarlierStages(c, now);
    EarlierStages(t, now);
    Cli.BannerChangesLittle(u, now);
    Cli.TelemetryChangesLittle(Cli.TickBanner(u, now).client, now);
  }

  lemma EarlierStages(c: Cli.Client, now: Time)
    ensures var t := Cli.TickKeepalive(c, now).client; t.nacked == c.nacked && t.lastNack == c.lastNack
    ensures var u := Cli.TickArq(c, now); u.nacked == c.nacked && u.lastNack == c.lastNack
  {
    hide Cli.Overdue, Cli.MarkSent;
  }

  /** A tick that asks for a frame puts a NACK with its mask on the wire. */
  lemma TickAsks(y: Sys, step: Step, r: Cli.Report)
    requires ValidSys(y) && Enabled(y, step) && step.event.ClientTick?
    requires Distinct(step.event.incomplete) && r in step.event.incomplete && Asks(y.client, r, step.now)
    ensures Nacked(Next(y, step).toServer, r)
  {
    hide Cli.TickKeepalive, Cli.TickArq, Cli.TickBanner, Cli.TickTelemetry, Cli.TickNack, Nacked, AnyNack,
         SendTimesAfter;
    var c, now, incomplete := y.client, step.now, step.event.incomplete;
    var c4 := BeforeNacks(c, now);
    var k := Cli.Tick(c, incomplete, now);
    NackStateKept(c, now);
    IncompleteFramesAreReported(c4, incomplete, now);
    var i :| 0 <= i < |incomplete| && incomplete[i] == r;
    assert Nacked(SentBy(Cli.TickNack(c4, incomplete, now).actions), r);
    LaterHasNacks(c, incomplete, now, r);
    hide SentBy, Cli.Tick;
    NackedJoin(y.toServer, SentBy(k.before) + ResentPackets(k.client.unacked, k.resent) + SentBy(k.later), r);
    NackedJoin(SentBy(k.before) + ResentPackets(k.client.unacked, k.resent), SentBy(k.later), r);
  }

  lemma LaterHasNacks(c: Cli.Client, incomplete: seq<Cli.Report>, now: Time, r: Cli.Report)
    requires var c4 := BeforeNacks(c, now);
             Nacked(SentBy(Cli.TickNack(c4, incomplete, now).actions), r)
    ensures Nacked(SentBy(Cli.Tick(c, incomplete, now).later), r)
  {
    hide Cli.TickKeepalive, Cli.TickArq, Cli.TickBanner, Cli.TickTelemetry, Cli.TickNack, SentBy, Nacked, AnyNack;
    var t3 := Cli.TickBanner(Cli.TickArq(Cli.TickKeepalive(c, now).client, now), now);
    var t4 := Cli.TickTelemetry(t3.client, now);
    var t5 := Cli.TickNack(t4.client, incomplete, now);
    SentByJoin(t3.actions + t4.actions, t5.actions);
    NackedJoin(SentBy(t3.actions + t4.actions), SentBy(t5.actions), r);
  }

  // ----- the server answers -----

  /** A NACK on the wire makes the server ask its cache for exactly that frame and mask. */
  lemma ServerAnswers(y: Sys, e: Stretch, q: ClientPacket, now: Time, env: Srv.Env)
    requires InputInv(y, e) && q in y.toServer && q.payload.FragmentNack?
    ensures q.sessionId != 0
    ensures Srv.ResendFragments(q.payload.frameSeq, q.payload.receivedMask) in Srv.Feed(y.server, q, now, env).replies
  {
    hide Srv.CheckSync, ServerIn, Sent;
    assert FromClient(q, y.client.sessionId, y.trace.log);
    var answer := Srv.ResendFragments(q.payload.frameSeq, q.payload.receivedMask);
    assert [answer][0] == answer;
  }

  // ----- the whole loop -----

  /** The tick reports a frame the buffer holds in part, and its NACK is due. */
  ghost predicate ReportsFrame(c: Codec, l: Link, tick: Step, r: Cli.Report)
    requires ValidSys(l.sys)
  {
    && LinkEnabled(c, l, Elsewhere(tick)) && tick.event.ClientTick?
    && r in tick.event.incomplete && Asks(l.sys.client, r, tick.now)
  }

  lemma ReportedFrame(l: Link, incomplete: seq<Cli.Report>, r: Cli.Report)
    requires Reports(AsReport(incomplete), l.frames) && r in incomplete
    ensures Distinct(incomplete)
    ensures r.frameSeq in l.frames && Encodes(r.mask, l.frames[r.frameSeq].total, l.frames[r.frameSeq].pieces.Keys)
  {
    hide Encodes, Incomplete;
    var report := AsReport(incomplete);
    var i :| 0 <= i < |incomplete| && incomplete[i] == r;
    assert report[i] == (r.frameSeq, r.mask);
    forall j, k | 0 <= j < k < |incomplete| ensures incomplete[j].frameSeq != incomplete[k].frameSeq {
      assert report[j].0 < report[k].0;
    }
  }

  /** A tick leaves the buffer and the server's packets alone. */
  lemma TickLeavesWire(y: Sys, tick: Step)
    requires ValidSys(y) && Enabled(y, tick) && tick.event.ClientTick?
    ensures Next(y, tick).toClient == y.toClient
  {
    hide Cli.Tick;
  }

  /** The NACK, and where the link is once the server has got it. */
  ghost predicate Answered(c: Codec, l: Link, tick: Step, r: Cli.Report, q: ClientPacket, now: Time, env: Srv.Env)
    requires ValidSys(l.sys) && LinkEnabled(c, l, Elsewhere(tick))
  {
    var m := LinkNext(c, l, Elsewhere(tick));
    && q in m.sys.toServer && q.payload == FragmentNack(r.frameSeq, r.mask)
    && LinkEnabled(c, m, Elsewhere(Step(now, ServerReceives(q, env))))
    && Srv.ResendFragments(r.frameSeq, r.mask) in Srv.Feed(m.sys.server, q, now, env).replies
  }

  lemma AskAndAnswer(c: Codec, l: Link, e: Stretch, tick: Step, r: Cli.Report, now: Time, env: Srv.Env)
      returns (q: ClientPacket)
    requires LinkInv(c, l) && InputInv(l.sys, e) && ReportsFrame(c, l, tick, r)
    requires now >= tick.now && Fits(env.resized)
    ensures Answered(c, l, tick, r, q, now, env)
  {
    hide LinkInv, InputInv, FitsCount, Next, Asks, Srv.Feed, Reports, Fits;
    LinkInvValid(c, l);
    ReportedFrame(l, tick.event.incomplete, r);
    TickAsks(l.sys, tick, r);
    var m := Next(l.sys, tick);
    assert Nacked(m.toServer, r);
    q :| q in m.toServer && q.payload == FragmentNack(r.frameSeq, r.mask);
    StepIn(l.sys, tick, e);
    ServerAnswers(m, StretchAfter(l.sys, tick, e), q, now, env);
    TickLeavesWire(l.sys, tick);
    TickClock(l.sys, tick);
  }

  lemma TickClock(y: Sys, tick: Step)
    requires ValidSys(y) && Enabled(y, tick) && tick.event.ClientTick?
    ensures Next(y, tick).clock == tick.now
  {
    hide Cli.Tick;
  }

  /** The tick, then the server's receiving the NACK. */
  function AskSteps(tick: Step, q: ClientPacket, now: Time, env: Srv.Env): (steps: seq<LinkStep>) {
    [Elsewhere(tick), Elsewhere(Step(now, ServerReceives(q, env)))]
  }

  lemma TwoSteps(c: Codec, l: Link, a: LinkStep, b: LinkStep)
    requires Inverse(c) && LinkInv(c, l) && ValidSys(l.sys) && LinkEnabled(c, l, a)
             && LinkEnabled(c, LinkNext(c, l, a), b)
    requires a.Elsewhere? && b.Elsewhere?
    ensures LinkFrom(c, l, [a, b]) == Some(LinkNext(c, LinkNext(c, l, a), b))
    ensures var m := LinkNext(c, LinkNext(c, l, a), b);
            LinkInv(c, m) && m.frames == l.frames && l.sys.toClient <= m.sys.toClient && m.sys.clock == b.step.now
  {
    hide LinkEnabled, LinkInv, Inverse, ScreenInv;
    LinkStepKeeps(c, l, a);
    LinkStepKeeps(c, LinkNext(c, l, a), b);
    TwoLink(c, l, a, b);
    ElsewhereGrows(c, l, a);
    ElsewhereGrows(c, LinkNext(c, l, a), b);
  }

  lemma TwoLink(c: Codec, l: Link, a: LinkStep, b: LinkStep)
    requires ValidSys(l.sys) && LinkEnabled(c, l, a) && LinkEnabled(c, LinkNext(c, l, a), b)
    ensures LinkFrom(c, l, [a, b]) == Some(LinkNext(c, LinkNext(c, l, a), b))
  {
    hide LinkEnabled, LinkNext, ValidSys;
    assert [a, b][..1] == [a] && [a][..0] == [];
    assert LinkFrom(c, l, []) == Some(l);
    assert LinkFrom(c, l, [a]) == Some(LinkNext(c, l, a));
  }

  lemma ElsewhereGrows(c: Codec, l: Link, s: LinkStep)
    requires ValidSys(l.sys) && LinkEnabled(c, l, s) && s.Elsewhere?
    ensures var m := LinkNext(c, l, s);
            m.frames == l.frames && l.sys.toClient <= m.sys.toClient && m.sys.clock == s.step.now
  {
    hide FitsCount, Next, Enabled;
    StepGrowsWire(l.sys, s.step);
    NextClock(l.sys, s.step);
  }

  lemma NextClock(y: Sys, step: Step)
    requires ValidSys(y) && Enabled(y, step)
    ensures Next(y, step).clock == step.now
  {
    hide Srv.Feed, Srv.Finish, Srv.FedOk, Cli.Feed, Cli.FeedStdin, Cli.OnWinch, Cli.Tick;
    match step.event {
      case ServerReceives(p, env) => Srv.FeedValid(y.server, p, step.now, env);
      case HandshakeArrives(p, env) => Srv.FeedValid(y.server, p, step.now, env);
      case ServerTick(echo) => Srv.FinishValid(y.server, [], [], step.now, echo);
      case _ =>
    }
  }

  /** The server's cache holds frame `p` among its newest four, and the run brings what it resends for the mask. */
  ghost predicate Resent(c: Codec, packets: set<ServerPacket>, p: ServerPacket, sent: seq<SentFrame>, mask: seq<bv64>,
                         run: seq<Arrival>) {
    && SentSealed(sent, Messages(c, packets))
    && exists i :: IsFirst(NewestFour(MultiFragment(sent)), p.seqNum, i)
                   && Brings(run, AnswerFor(NewestFour(MultiFragment(sent))[i], mask))
  }

  function AnswerFor(f: SentFrame, mask: seq<bv64>): (r: seq<Fragment>) {
    Unreceived(f.packets, mask, |f.packets|)
  }

  lemma ResentIsUnreceived(c: Codec, l: Link, m: Link, p: ServerPacket, sent: seq<SentFrame>, mask: seq<bv64>,
                           run: seq<Arrival>)
    requires LinkInv(c, l) && LinkInv(c, m) && l.sys.toClient <= m.sys.toClient && p in l.sys.toClient
    requires Resent(c, l.sys.toClient, p, sent, mask, run)
    ensures p.seqNum in Messages(c, m.sys.toClient) && Messages(c, m.sys.toClient)[p.seqNum] == Sealing(c, p)
    ensures Brings(run, Unreceived(Fragments(Sealing(c, p)), mask, FragmentCount(Sealing(c, p))))
  {
    hide Messages, Agrees, ScreenInv, Brings, Unreceived, FragmentAt, FragmentCount;
    SealsOnce(l.sys);
    SealsOnce(m.sys);
    MessageOf(c, l.sys.toClient, p);
    MessageOf(c, m.sys.toClient, p);
    var i :| IsFirst(NewestFour(MultiFragment(sent)), p.seqNum, i)
             && Brings(run, AnswerFor(NewestFour(MultiFragment(sent))[i], mask));
    var f := NewestFour(MultiFragment(sent))[i];
    assert f in MultiFragment(sent);
    assert f.packets == Fragments(Sealing(c, p));
  }

  lemma AllCutFrom(c: Codec, p: ServerPacket, mask: seq<bv64>, run: seq<Arrival>)
    requires FragmentCount(Sealing(c, p)) <= MAX_FRAGMENTS
    requires Brings(run, Unreceived(Fragments(Sealing(c, p)), mask, FragmentCount(Sealing(c, p))))
    ensures forall i | 0 <= i < |run| :: CutFrom(c, p, run[i].fragment)
  {
    hide Unreceived, FragmentCount, FragmentAt;
    forall i | 0 <= i < |run| ensures CutFrom(c, p, run[i].fragment) {
      UnreceivedAmong(Fragments(Sealing(c, p)), mask, FragmentCount(Sealing(c, p)));
      assert run[i].fragment in Unreceived(Fragments(Sealing(c, p)), mask, FragmentCount(Sealing(c, p)));
    }
  }

  lemma {:induction false} UnreceivedAmong(packets: seq<Fragment>, mask: seq<bv64>, n: nat)
    requires n <= |packets|
    ensures forall f | f in Unreceived(packets, mask, n) :: f in packets
    decreases n
  {
    if n > 0 {
      UnreceivedAmong(packets, mask, n - 1);
    }
  }

  /** What the resent fragments do once the server has answered. */
  lemma ResentDelivers(c: Codec, l: Link, m: Link, p: ServerPacket, sent: seq<SentFrame>, mask: seq<bv64>,
                       run: seq<Arrival>,
                       times: seq<Time>)
    requires Inverse(c) && LinkInv(c, l) && LinkInv(c, m) && l.sys.toClient <= m.sys.toClient && p in l.sys.toClient
    requires BufferInv(m.frames) && p.seqNum in m.frames && FitsCount(c, m.sys.toClient)
    requires Encodes(mask, m.frames[p.seqNum].total, m.frames[p.seqNum].pieces.Keys)
    requires Resent(c, l.sys.toClient, p, sent, mask, run)
    requires |times| == |run| && forall t | t in times :: t >= m.sys.clock
    ensures ValidSys(m.sys) && run != [] && Delivers(c, m, p, Fetch(run, times), times[|run| - 1])
  {
    hide Messages, Inverse, ScreenInv, BufferInv, Encodes, Resent, Unreceived, FragmentCount, Agrees, Output,
         Delivers, Brings, Exact, FillsIn, CutFrom;
    var messages := Messages(c, m.sys.toClient);
    MessagesSealed(c, m.sys.toClient);
    ResentIsUnreceived(c, l, m, p, sent, mask, run);
    AllCutFrom(c, p, mask, run);
    ResentFillsIn(m.frames, messages, p.seqNum, mask, run);
    ResendCompletes(m.frames, messages, p.seqNum, mask, run);
    assert p in m.sys.toClient;
    forall i | 0 <= i < |times| ensures times[i] >= m.sys.clock {
      assert times[i] in times;
    }
    FetchingDelivers(c, m, p, run, times);
  }

  /**
   * The loop closes, on every run of fragments: when a tick asks for a frame the client holds in part and
   * the server still caches it, some NACK it sent makes the server resend exactly what the mask does not
   * mark, and when those fragments arrive the client receives the whole packet, once, with the last one.
   */
  lemma NackLoopCloses(c: Codec, g: Config, before: seq<LinkStep>, tick: Step, r: Cli.Report, now: Time, env: Srv.Env,
                       p: ServerPacket, sent: seq<SentFrame>, run: seq<Arrival>, times: seq<Time>)
      returns (q: ClientPacket)
    requires Inverse(c) && ValidConfig(g) && LinkRun(c, g, before).Some?
    requires ReportsFrame(c, LinkRun(c, g, before).value, tick, r)
    requires p in LinkRun(c, g, before).value.sys.toClient && p.seqNum == r.frameSeq
    requires Resent(c, LinkRun(c, g, before).value.sys.toClient, p, sent, r.mask, run)
    requires now >= tick.now && Fits(env.resized) && |times| == |run| && forall t | t in times :: t >= now
    ensures var l := LinkRun(c, g, before).value;
            && Answered(c, l, tick, r, q, now, env) && LinkFrom(c, l, AskSteps(tick, q, now, env)).Some?
            && var m := LinkFrom(c, l, AskSteps(tick, q, now, env)).value;
               FitsCount(c, m.sys.toClient) ==> run != [] && Delivers(c, m, p, Fetch(run, times), times[|run| - 1])
  {
    hide LinkRun, LinkFrom, LinkInv, Inverse, RunFrom, InputInv, PresentStretch, ValidSys, Resent, Delivers,
         BufferInv, Fits, LinkEnabled, LinkNext, Srv.Feed, Encodes, FitsCount, Asks;
    var l := LinkRun(c, g, before).value;
    LinkRunIsRun(c, g, before);
    var packets := PacketSteps(c, Start(g), before);
    RunIn(g, packets);
    q := AskAndAnswer(c, l, PresentStretch(g, packets), tick, r, now, env);
    TwoSteps(c, l, Elsewhere(tick), Elsewhere(Step(now, ServerReceives(q, env))));
    LinkRunBuffer(c, g, before);
    ReportsHeld(c, l, tick, r);
    var m := LinkFrom(c, l, AskSteps(tick, q, now, env)).value;
    if FitsCount(c, m.sys.toClient) {
      ResentDelivers(c, l, m, p, sent, r.mask, run, times);
    }
  }

  lemma LinkRunBuffer(c: Codec, g: Config, steps: seq<LinkStep>)
    requires ValidConfig(g) && LinkRun(c, g, steps).Some?
    ensures BufferInv(LinkRun(c, g, steps).value.frames)
  {
    hide LinkFrom;
    InitValid(g);
    LinkBuffer(c, Start(g), steps);
  }

  lemma ReportsHeld(c: Codec, l: Link, tick: Step, r: Cli.Report)
    requires ValidSys(l.sys) && ReportsFrame(c, l, tick, r)
    ensures r.frameSeq in l.frames && Encodes(r.mask, l.frames[r.frameSeq].total, l.frames[r.frameSeq].pieces.Keys)
  {
    hide Encodes, Asks, Reports, Enabled, FitsCount;
    ReportedFrame(l, tick.event.incomplete, r);
  }
}

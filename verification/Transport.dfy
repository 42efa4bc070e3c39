/**
 * The link below the packets: the server's packets are sealed, cut into fragments and reassembled at
 * the client. Every run of fragments is a run of packets, so what holds on every packet run holds here.
 */
module Transport {
  import opened Base
  import opened TerminalGrid
  import opened Protocol
  import opened Network
  import opened Fragmentation
  import opened Reassembly
  import opened ScreenChannel
  import opened ScreenRuns
  import opened InputRuns
  import opened Delivery
  import opened Healing
  import Srv = ServerSession
  import Cli = ClientSession

  /** Compression, serialization and encryption of a server payload under its number and ack. */
  datatype Codec = Codec(seal: (nat, nat, ServerPayload) -> seq<byte>,
                         open: (nat, nat, seq<byte>) -> Option<ServerPayload>)

  /** Opening what was sealed gives the payload back. */
  ghost predicate Inverse(c: Codec) {
    forall n: nat, a: nat, p: ServerPayload :: c.open(n, a, c.seal(n, a, p)) == Some(p)
  }

  function Sealing(c: Codec, p: ServerPacket): (r: Message) {
    Message(p.seqNum, p.ack, c.seal(p.seqNum, p.ack, p.payload))
  }

  /** Both sessions and the client's reassembly buffer. */
  datatype Link = Link(sys: Sys, frames: map<nat, Partial>)

  datatype LinkStep =
    | FragmentArrives(now: Time, fragment: Fragment, wireLen: nat)
    | Elsewhere(step: Step)

  predicate CutFrom(c: Codec, p: ServerPacket, f: Fragment) {
    f in Fragments(Sealing(c, p))
  }

  /** The packets are small enough for a u16 fragment count. */
  predicate FitsCount(c: Codec, packets: set<ServerPacket>) {
    forall p | p in packets :: FragmentCount(Sealing(c, p)) <= MAX_FRAGMENTS
  }

  function AsReport(incomplete: seq<Cli.Report>): (r: seq<(nat, seq<bv64>)>) {
    seq(|incomplete|, i requires 0 <= i < |incomplete| => (incomplete[i].frameSeq, incomplete[i].mask))
  }

  /** Any fragment ever cut from a packet may arrive, and a tick reports what the buffer lacks. */
  ghost predicate LinkEnabled(c: Codec, l: Link, s: LinkStep) {
    FitsCount(c, l.sys.toClient) &&
    match s
    case FragmentArrives(now, f, _) => now >= l.sys.clock && exists p :: p in l.sys.toClient && CutFrom(c, p, f)
    case Elsewhere(step) =>
      && !step.event.ClientReceives? && Enabled(l.sys, step)
      && (step.event.ClientTick? ==> Reports(AsReport(step.event.incomplete), l.frames))
  }

  /** What a completed fragment set opens to, if it opens. */
  function Opened(c: Codec, out: Option<Assembled>): (r: Option<ServerPacket>) {
    if out.None? then None
    else
      match c.open(out.value.seqNum, out.value.ack, out.value.ciphertext)
      case None => None
      case Some(payload) => Some(ServerPacket(out.value.seqNum, out.value.ack, payload))
  }

  ghost function LinkNext(c: Codec, l: Link, s: LinkStep): (r: Link)
    requires ValidSys(l.sys) && LinkEnabled(c, l, s)
  {
    match s
    case FragmentArrives(now, f, wireLen) =>
      var r := Insert(l.frames, f, wireLen);
      var packet := Opened(c, r.out);
      Link(if packet.Some? then AfterReceive(l.sys, packet.value, now) else l.sys, r.frames)
    case Elsewhere(step) => Link(Next(l.sys, step), l.frames)
  }

  // ----- the messages on the wire -----

  ghost function SealedNumbers(packets: set<ServerPacket>): (r: set<nat>) {
    set p | p in packets :: p.seqNum
  }

  ghost function PacketNumbered(packets: set<ServerPacket>, n: nat): (p: ServerPacket)
    requires n in SealedNumbers(packets)
    ensures p in packets && p.seqNum == n
  {
    var p :| p in packets && p.seqNum == n;
    p
  }

  /** One message for each number: the server seals at most one packet under it. */
  ghost function Messages(c: Codec, packets: set<ServerPacket>): (r: map<nat, Message>) {
    map n | n in SealedNumbers(packets) :: Sealing(c, PacketNumbered(packets, n))
  }

  lemma MessageOf(c: Codec, packets: set<ServerPacket>, p: ServerPacket)
    requires SealedOnce(packets) && p in packets
    ensures p.seqNum in Messages(c, packets) && Messages(c, packets)[p.seqNum] == Sealing(c, p)
  {
  }

  lemma MessagesSealed(c: Codec, packets: set<ServerPacket>)
    requires FitsCount(c, packets)
    ensures Sealed(Messages(c, packets))
  {
  }

  lemma MessagesGrow(c: Codec, a: set<ServerPacket>, b: set<ServerPacket>, n: nat)
    requires a <= b && SealedOnce(b) && n in Messages(c, a)
    ensures n in Messages(c, b) && Messages(c, b)[n] == Messages(c, a)[n]
  {
    MessageOf(c, b, PacketNumbered(a, n));
  }

  lemma AgreesGrow(c: Codec, a: set<ServerPacket>, b: set<ServerPacket>, frames: map<nat, Partial>)
    requires a <= b && SealedOnce(b) && Agrees(frames, Messages(c, a))
    ensures Agrees(frames, Messages(c, b))
  {
    hide Messages, HoldsChunks;
    forall s | s in frames ensures s in Messages(c, b) && Messages(c, b)[s] == Messages(c, a)[s] {
      MessagesGrow(c, a, b, s);
    }
  }

  /** A reassembled message opens to a packet the server sealed. */
  lemma OpensToAPacket(c: Codec, packets: set<ServerPacket>, frames: map<nat, Partial>, f: Fragment, wireLen: nat,
                       p: ServerPacket)
    requires Inverse(c) && SealedOnce(packets) && FitsCount(c, packets) && Agrees(frames, Messages(c, packets))
    requires p in packets && CutFrom(c, p, f)
    ensures var r := Insert(frames, f, wireLen);
            Agrees(r.frames, Messages(c, packets)) && (r.out.Some? ==> Opened(c, r.out) == Some(p))
  {
    hide Messages, Agrees, Insert, FragmentCount, Piece, FragmentAt;
    MessageOf(c, packets, p);
    MessagesSealed(c, packets);
    FragmentsAre(Sealing(c, p), f);
    assert FromSealed(f, Messages(c, packets));
    InsertAgrees(frames, Messages(c, packets), f, wireLen);
    InsertSealed(frames, Messages(c, packets), f, wireLen);
    var out := Insert(frames, f, wireLen).out;
    if out.Some? {
      assert c.open(p.seqNum, p.ack, c.seal(p.seqNum, p.ack, p.payload)) == Some(p.payload);
    }
  }

  // ----- runs of fragments -----

  ghost function LinkFrom(c: Codec, start: Link, steps: seq<LinkStep>): (l: Option<Link>)
    requires ValidSys(start.sys)
    ensures l.Some? ==> ValidSys(l.value.sys)
  {
    if steps == [] then Some(start)
    else
      var before := LinkFrom(c, start, steps[..|steps| - 1]);
      var last := steps[|steps| - 1];
      if before.Some? && LinkEnabled(c, before.value, last) then Some(LinkNext(c, before.value, last)) else None
  }

  function Start(g: Config): (l: Link) {
    Link(Init(g), map[])
  }

  ghost function LinkRun(c: Codec, g: Config, steps: seq<LinkStep>): (l: Option<Link>)
    requires ValidConfig(g)
    ensures l.Some? ==> ValidSys(l.value.sys)
  {
    LinkFrom(c, Start(g), steps)
  }

  /** What one step of the link is at the packet level: a fragment that completes nothing is no step at all. */
  function PacketStep(c: Codec, l: Link, s: LinkStep): (steps: seq<Step>)
    ensures |steps| <= 1
  {
    match s
    case FragmentArrives(now, f, wireLen) =>
      var packet := Opened(c, Insert(l.frames, f, wireLen).out);
      if packet.Some? then [Step(now, ClientReceives(packet.value))] else []
    case Elsewhere(step) => [step]
  }

  ghost function PacketSteps(c: Codec, start: Link, steps: seq<LinkStep>): (packets: seq<Step>)
    requires ValidSys(start.sys) && LinkFrom(c, start, steps).Some?
  {
    if steps == [] then []
    else
      var before := steps[..|steps| - 1];
      PacketSteps(c, start, before) + PacketStep(c, LinkFrom(c, start, before).value, steps[|steps| - 1])
  }

  /** The screen channel's invariant, and true chunks in the reassembly buffer. */
  ghost predicate LinkInv(c: Codec, l: Link) {
    ValidSys(l.sys) && ScreenInv(l.sys) && Agrees(l.frames, Messages(c, l.sys.toClient))
  }

  lemma StepProjects(c: Codec, l: Link, s: LinkStep)
    requires Inverse(c) && LinkInv(c, l) && LinkEnabled(c, l, s)
    ensures var steps := PacketStep(c, l, s);
            && (steps == [] ==> LinkNext(c, l, s).sys == l.sys)
            && (steps != [] ==> Enabled(l.sys, steps[0]) && LinkNext(c, l, s).sys == Next(l.sys, steps[0]))
    ensures Agrees(LinkNext(c, l, s).frames, Messages(c, l.sys.toClient))
  {
    hide AfterReceive, Insert, Messages, Agrees, Inverse, Opened, FitsCount, ScreenInv;
    SealsOnce(l.sys);
    match s {
      case FragmentArrives(now, f, wireLen) =>
        var p :| p in l.sys.toClient && CutFrom(c, p, f);
        var out := Insert(l.frames, f, wireLen).out;
        OpensToAPacket(c, l.sys.toClient, l.frames, f, wireLen, p);
        NothingOpens(c, out);
      case Elsewhere(step) =>
    }
  }

  lemma SealsOnce(y: Sys)
    requires ScreenInv(y)
    ensures SealedOnce(y.toClient)
  {
  }

  lemma NothingOpens(c: Codec, out: Option<Assembled>)
    ensures out.None? ==> Opened(c, out) == None
  {
  }

  lemma StepGrowsWire(y: Sys, step: Step)
    requires ValidSys(y) && Enabled(y, step)
    ensures y.toClient <= Next(y, step).toClient
  {
    hide Srv.Feed, Srv.Finish, Srv.FedOk, Cli.Feed, Cli.FeedStdin, Cli.OnWinch, Cli.Tick;
    match step.event {
      case ServerReceives(p, env) => Srv.FeedValid(y.server, p, step.now, env);
      case HandshakeArrives(p, env) => Srv.FeedValid(y.server, p, step.now, env);
      case ServerTick(echo) => Srv.FinishValid(y.server, [], [], step.now, echo);
      case _ =>
    }
  }

  lemma LinkStepKeeps(c: Codec, l: Link, s: LinkStep)
    requires Inverse(c) && LinkInv(c, l) && LinkEnabled(c, l, s)
    ensures LinkInv(c, LinkNext(c, l, s))
  {
    hide Enabled, Next, ValidSys, LinkEnabled, LinkNext, PacketStep, Agrees, Messages, Inverse, SealedOnce, ScreenInv;
    var steps := PacketStep(c, l, s);
    StepProjects(c, l, s);
    if steps != [] {
      StepGrowsWire(l.sys, steps[0]);
      StepKeeps(l.sys, steps[0]);
      SealsOnce(Next(l.sys, steps[0]));
      AgreesGrow(c, l.sys.toClient, Next(l.sys, steps[0]).toClient, LinkNext(c, l, s).frames);
    }
  }

  /**
   * Fragments refine packets: whatever fragments arrive, in whatever order, interleaved and duplicated,
   * both sessions are where the run of the packets that completed takes them.
   */
  lemma {:induction false} FragmentsRefinePackets(c: Codec, l: Link, steps: seq<LinkStep>)
    requires Inverse(c) && LinkInv(c, l) && LinkFrom(c, l, steps).Some?
    ensures LinkInv(c, LinkFrom(c, l, steps).value)
    ensures RunFrom(l.sys, PacketSteps(c, l, steps)) == Some(LinkFrom(c, l, steps).value.sys)
    decreases |steps|
  {
    hide Enabled, Next, ValidSys, LinkEnabled, LinkNext, PacketStep, Agrees, Messages, Inverse, ScreenInv;
    if steps != [] {
      var before, last := steps[..|steps| - 1], steps[|steps| - 1];
      FragmentsRefinePackets(c, l, before);
      var m := LinkFrom(c, l, before).value;
      StepProjects(c, m, last);
      LinkStepKeeps(c, m, last);
      var packets, more := PacketSteps(c, l, before), PacketStep(c, m, last);
      if more == [] {
        assert packets + more == packets;
      } else {
        assert (packets + more)[..|packets + more| - 1] == packets;
      }
    }
  }

  lemma StartInv(c: Codec, g: Config)
    requires ValidConfig(g)
    ensures LinkInv(c, Start(g))
  {
    hide ScreenInv, ValidSys;
    InitValid(g);
    StartsInv(g);
    NothingHeld(c, {});
  }

  lemma NothingHeld(c: Codec, packets: set<ServerPacket>)
    ensures Agrees(map[], Messages(c, packets))
  {
  }

  lemma LinkRunIsRun(c: Codec, g: Config, steps: seq<LinkStep>)
    requires Inverse(c) && ValidConfig(g) && LinkRun(c, g, steps).Some?
    ensures LinkInv(c, LinkRun(c, g, steps).value) && LinkFrom(c, Start(g), steps).Some?
    ensures ValidSys(Start(g).sys) && Run(g, PacketSteps(c, Start(g), steps)) == Some(LinkRun(c, g, steps).value.sys)
  {
    hide LinkFrom, LinkInv, Inverse, PacketSteps, RunFrom, ValidSys;
    InitValid(g);
    StartInv(c, g);
    FragmentsRefinePackets(c, Start(g), steps);
  }

  /** With fragments on the wire too, what both ends remember under a number is the recorded grid. */
  lemma HistoriesAgreeOverFragments(c: Codec, g: Config, steps: seq<LinkStep>)
    requires Inverse(c) && ValidConfig(g) && LinkRun(c, g, steps).Some?
    ensures var y := LinkRun(c, g, steps).value.sys;
            HistoryAgrees(y.client.history, y.trace.recorded) && HistoryAgrees(y.server.history, y.trace.recorded)
  {
    hide LinkRun, Run, Inverse, PacketSteps;
    LinkRunIsRun(c, g, steps);
  }

  // ----- the input channel over fragments -----

  /** No reset among the link's steps moves the window. */
  ghost predicate LinkWindowKept(c: Codec, l: Link, steps: seq<LinkStep>)
    requires ValidSys(l.sys) && LinkFrom(c, l, steps).Some?
    decreases |steps|
  {
    steps != [] ==>
      var before, last := steps[..|steps| - 1], steps[|steps| - 1];
      LinkWindowKept(c, l, before) && (last.Elsewhere? ==> KeepsWindow(LinkFrom(c, l, before).value.sys, last.step))
  }

  lemma PacketKeepsWindow(c: Codec, l: Link, s: LinkStep)
    requires s.Elsewhere? ==> KeepsWindow(l.sys, s.step)
    ensures PacketStep(c, l, s) != [] ==> KeepsWindow(l.sys, PacketStep(c, l, s)[0])
  {
    hide Insert, Opened;
  }

  lemma {:induction false} PacketsKeepWindow(c: Codec, l: Link, steps: seq<LinkStep>)
    requires Inverse(c) && LinkInv(c, l) && LinkFrom(c, l, steps).Some? && LinkWindowKept(c, l, steps)
    ensures RunFrom(l.sys, PacketSteps(c, l, steps)).Some? && WindowKept(l.sys, PacketSteps(c, l, steps))
    decreases |steps|
  {
    hide Enabled, Next, ValidSys, LinkEnabled, LinkNext, PacketStep, LinkInv, Inverse, KeepsWindow;
    FragmentsRefinePackets(c, l, steps);
    LinkInvValid(c, l);
    if steps != [] {
      var before, last := steps[..|steps| - 1], steps[|steps| - 1];
      PacketsKeepWindow(c, l, before);
      FragmentsRefinePackets(c, l, before);
      var packets, more := PacketSteps(c, l, before), PacketStep(c, LinkFrom(c, l, before).value, last);
      PacketKeepsWindow(c, LinkFrom(c, l, before).value, last);
      if more == [] {
        assert packets + more == packets;
      } else {
        assert (packets + more)[..|packets + more| - 1] == packets;
      }
    }
  }

  lemma LinkInvValid(c: Codec, l: Link)
    requires LinkInv(c, l)
    ensures ValidSys(l.sys)
  {
  }

  /**
   * Exactly-once, in-order delivery holds on every run of fragments as well, for the stretch since the
   * last reset that moved the window, and for the whole run as long as none did.
   */
  lemma ExactlyOnceOverFragments(c: Codec, g: Config, steps: seq<LinkStep>)
    requires Inverse(c) && ValidConfig(g) && LinkRun(c, g, steps).Some? && ValidSys(Start(g).sys)
    ensures var packets, y := PacketSteps(c, Start(g), steps), LinkRun(c, g, steps).value.sys;
            && Run(g, packets) == Some(y) && InOrder(y, PresentStretch(g, packets))
            && (LinkWindowKept(c, Start(g), steps) ==> InOrder(y, FirstStretch(g)))
  {
    hide LinkFrom, LinkInv, Inverse, PacketSteps, RunFrom, ValidSys, WindowKept, LinkWindowKept, InOrder,
         PresentStretch;
    StartInv(c, g);
    LinkRunIsRun(c, g, steps);
    ExactlyOnceInOrder(g, PacketSteps(c, Start(g), steps));
    if LinkWindowKept(c, Start(g), steps) {
      PacketsKeepWindow(c, Start(g), steps);
    }
  }

  // ----- healing over fragments -----

  predicate LinkStill(steps: seq<LinkStep>, screen: Grid) {
    forall s | s in steps :: s.Elsewhere? ==> StillStep(s.step, screen)
  }

  /** A round as seen on the link: fragments may arrive between the packet in order and the tick. */
  ghost predicate LinkRound(c: Codec, l: Link, round: seq<LinkStep>)
    requires ValidSys(l.sys)
  {
    && |round| >= 2 && LinkFrom(c, l, round).Some? && LinkStill(round, l.sys.server.screen)
    && round[0].Elsewhere? && round[0].step.event.ServerReceives?
       && Beats(l.sys.server, round[0].step.event.clientPacket)
    && round[|round| - 1].Elsewhere? && round[|round| - 1].step.event.ServerTick?
    && LinkFrom(c, l, round[..|round| - 1]).Some?
    && !Srv.Throttled(LinkFrom(c, l, round[..|round| - 1]).value.sys.server, round[|round| - 1].step.now)
  }

  lemma {:induction false} PacketsFirst(c: Codec, l: Link, steps: seq<LinkStep>)
    requires ValidSys(l.sys) && steps != [] && steps[0].Elsewhere? && LinkFrom(c, l, steps).Some?
    ensures PacketSteps(c, l, steps) != [] && PacketSteps(c, l, steps)[0] == steps[0].step
    decreases |steps|
  {
    hide LinkEnabled, LinkNext, ValidSys;
    var before := steps[..|steps| - 1];
    if before == [] {
      assert PacketSteps(c, l, before) == [];
    } else {
      hide PacketStep;
      PacketsFirst(c, l, before);
    }
  }

  lemma {:induction false} PacketsStill(c: Codec, l: Link, steps: seq<LinkStep>, screen: Grid)
    requires ValidSys(l.sys) && LinkFrom(c, l, steps).Some? && LinkStill(steps, screen)
    ensures Still(PacketSteps(c, l, steps), screen)
    decreases |steps|
  {
    hide LinkEnabled, LinkNext, ValidSys, Insert, Opened;
    if steps != [] {
      var before, last := steps[..|steps| - 1], steps[|steps| - 1];
      PacketsStill(c, l, before, screen);
      assert last in steps;
      assert Still(PacketStep(c, LinkFrom(c, l, before).value, last), screen);
    }
  }

  lemma LinkRoundIsRound(c: Codec, l: Link, round: seq<LinkStep>)
    requires Inverse(c) && LinkInv(c, l) && LinkRound(c, l, round)
    ensures Round(l.sys, PacketSteps(c, l, round))
  {
    hide Enabled, Next, ValidSys, LinkEnabled, LinkNext, LinkInv, Inverse, RunFrom, LinkFrom, Beats, StillStep,
         Srv.Throttled, LinkStill;
    LinkInvValid(c, l);
    var before, last := round[..|round| - 1], round[|round| - 1];
    var packets := PacketSteps(c, l, round);
    FragmentsRefinePackets(c, l, round);
    FragmentsRefinePackets(c, l, before);
    PacketsFirst(c, l, round);
    PacketsFirst(c, l, before);
    PacketsStill(c, l, round, l.sys.server.screen);
    assert packets == PacketSteps(c, l, before) + [last.step];
    assert packets[..|packets| - 1] == PacketSteps(c, l, before);
  }

  /**
   * One-round healing on the link: after such a round, wherever the fragments take the run from there, a
   * client that completes the frame's fragments before those of any packet numbered above it ends with
   * exactly the screen the server had when the round began.
   */
  lemma OneRoundHealsOverFragments(c: Codec, g: Config, steps: seq<LinkStep>, round: seq<LinkStep>,
                                   later: seq<LinkStep>, now: Time)
    returns (p: ServerPacket)
    requires Inverse(c) && ValidConfig(g) && LinkRun(c, g, steps).Some?
             && LinkRound(c, LinkRun(c, g, steps).value, round)
    requires LinkFrom(c, LinkRun(c, g, steps).value, round).Some?
    requires LinkFrom(c, LinkFrom(c, LinkRun(c, g, steps).value, round).value, later).Some?
    ensures var l := LinkRun(c, g, steps).value;
            var s, y := l.sys.server, LinkFrom(c, LinkFrom(c, l, round).value, later).value.sys;
            && CarriesScreen(p, y, s.seqNum, s.screen)
            && (Takes(y.client, p) ==> EndsWith(y.client, p, now, s.screen))
  {
    hide LinkRun, LinkFrom, LinkInv, Inverse, PacketSteps, Run, RunFrom, ValidSys, LinkRound, Round, CarriesScreen,
         Takes, EndsWith;
    var l := LinkRun(c, g, steps).value;
    LinkRunIsRun(c, g, steps);
    LinkRoundIsRound(c, l, round);
    FragmentsRefinePackets(c, l, round);
    var m := LinkFrom(c, l, round).value;
    LinkInvValid(c, m);
    FragmentsRefinePackets(c, m, later);
    var a, b, d := PacketSteps(c, Start(g), steps), PacketSteps(c, l, round), PacketSteps(c, m, later);
    RunJoin(g, a, b);
    RunJoin(g, a + b, d);
    p := OneRoundHealsAnyLoss(g, a, b, d, now);
  }
}

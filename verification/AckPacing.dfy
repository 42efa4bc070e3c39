/** When the client acknowledges an applied frame, on every run, and what the server makes of it. */
module AckPacing {
  import opened Base
  import opened TerminalGrid
  import opened Protocol
  import opened Network
  import opened InputChannel
  import opened InputRuns
  import opened ScreenChannel
  import opened ScreenRuns
  import opened MirrorRuns
  import opened Healing
  import EscapeFilter
  import ClientMirror
  import LocalEcho
  import Srv = ServerSession
  import Cli = ClientSession

  function AcksIn(actions: seq<Cli.ClientAction>): (r: set<ClientPacket>) {
    set q | q in SentBy(actions) && q.payload.Ack?
  }

  /** When a packet's arrival made the client send an Ack. */
  ghost function AckTimes(y: Sys, steps: seq<Step>): (times: seq<Time>)
    requires ValidSys(y) && RunFrom(y, steps).Some?
    decreases |steps|
  {
    if steps == [] then []
    else
      var before, last := steps[..|steps| - 1], steps[|steps| - 1];
      AckTimes(y, before) + (if Acks(RunFrom(y, before).value, last) then [last.now] else [])
  }

  predicate Acks(y: Sys, step: Step)
    requires ValidSys(y)
  {
    step.event.ClientReceives? && AcksIn(Cli.Feed(y.client, step.event.serverPacket, step.now).actions) != {}
  }

  /** The last of them, or the start of the session. */
  function LastOf(start: Time, times: seq<Time>): (t: Time) {
    if times == [] then start else times[|times| - 1]
  }

  /** They are at least 30 ms apart, and from the start of the session. */
  predicate AcksSpaced(start: Time, times: seq<Time>) {
    && (forall i | 0 < i < |times| :: times[i] - times[i - 1] >= 30)
    && (times != [] ==> times[0] - start >= 30)
  }

  predicate AckInv(y: Sys, start: Time, times: seq<Time>) {
    && y.client.lastAckSent == LastOf(start, times) <= y.clock
    && AcksSpaced(start, times) && forall t | t in times :: t <= y.client.lastAckSent
  }

  // ----- one packet -----

  /** The Ack for frame `n`: the next transient number, acknowledging exactly that frame. */
  function AckFor(c: Cli.Client, n: nat): (q: ClientPacket) {
    ClientPacket(c.sessionId, TRANSIENT_BIT + c.transientSeq + 1, n, Ack)
  }

  lemma FeedAcks(c: Cli.Client, p: ServerPacket, now: Time)
    requires Cli.ValidClient(c)
    ensures var f := Cli.Feed(c, p, now);
            && (f.outcome.Applied? ==>
                  if Since(now, c.lastAckSent) >= 30
                  then f.actions == [Cli.Paint, Cli.Send(AckFor(c, p.seqNum))] && f.client.lastAckSent == now
                  else f.actions == [Cli.Paint] && f.client.lastAckSent == c.lastAckSent)
            && (!f.outcome.Applied? && !f.outcome.MissingReference? ==>
                  (f.actions == [] || f.actions == [Cli.Quit]) && f.client.lastAckSent == c.lastAckSent)
            && (f.outcome.MissingReference? ==>
                  f.actions == [Cli.Send(AckFor(c, p.seqNum))] && f.client.lastAckSent == now)
  {
    hide LocalEcho.Reconcile, Cli.LossAfter, Cli.RttAfter, Patch, Cli.StartFor, Cli.Mirrored, ClientMirror.ShowBanner;
  }

  /** A shutdown notice newer than all before ends the session, unless the client panics on it; nothing else does. */
  lemma QuitsExactly(c: Cli.Client, p: ServerPacket, now: Time)
    requires Cli.ValidClient(c)
    ensures Cli.Quit in Cli.Feed(c, p, now).actions
            <==> p.seqNum > c.ackSeq && p.payload.Shutdown? && !Cli.Panics(c, p)
  {
    hide LocalEcho.Reconcile, Cli.LossAfter, Cli.RttAfter, Patch, Cli.StartFor, Cli.Mirrored, ClientMirror.ShowBanner;
    Cli.PanicsExactly(c, p, now);
  }

  /**
   * A frame whose reference the client does not remember is not applied but acknowledged at once, whenever the
   * last Ack was sent; what it remembers stays. No run gets there, but any client state would act so.
   */
  lemma MissingReferenceAsksAtOnce(c: Cli.Client, p: ServerPacket, now: Time)
    requires Cli.ValidClient(c) && p.payload.FramePayload? && p.seqNum > c.ackSeq && !Cli.Panics(c, p)
    requires p.payload.update.refSeq != 0 && Find(c.history, p.payload.update.refSeq).None?
    ensures var f := Cli.Feed(c, p, now);
            && f.outcome.MissingReference? && f.actions == [Cli.Send(AckFor(c, p.seqNum))]
            && f.client.history == c.history && f.client.echoEnabled == c.echoEnabled
  {
    hide LocalEcho.Reconcile, Cli.LossAfter, Cli.RttAfter, Patch, Cli.Mirrored, ClientMirror.ShowBanner, Find;
    LocalEcho.ReconcileKeepsShape(c.mirror, p.ack);
  }

  lemma AcksInEach(q: ClientPacket)
    requires q.payload.Ack?
    ensures AcksIn([Cli.Paint, Cli.Send(q)]) == {q}
    ensures AcksIn([Cli.Paint]) == {} && AcksIn([]) == {} && AcksIn([Cli.Quit]) == {}
  {
    assert Cli.Send(q) in [Cli.Paint, Cli.Send(q)];
  }

  lemma OthersKeepAckTime(c: Cli.Client, buf: seq<byte>, cols: u16, rows: u16, incomplete: seq<Cli.Report>, now: Time)
    requires Cli.ValidClient(c)
    ensures Cli.FeedStdin(c, buf, now).client.lastAckSent == c.lastAckSent
    ensures Cli.OnWinch(c, cols, rows, now).client.lastAckSent == c.lastAckSent
    ensures Cli.Tick(c, incomplete, now).client.lastAckSent == c.lastAckSent
  {
    hide LocalEcho.Predict, LocalEcho.Abort, EscapeFilter.Filter;
    hide Cli.CommandActions, Cli.Tick, Cli.MarkSent, Cli.Overdue;
    Cli.TickChangesLittle(c, incomplete, now);
  }

  // ----- every run -----

  lemma AckedNow(start: Time, times: seq<Time>, now: Time)
    requires AcksSpaced(start, times) && now - LastOf(start, times) >= 30
    requires forall t | t in times :: t <= LastOf(start, times)
    ensures AcksSpaced(start, times + [now]) && forall t | t in times + [now] :: t <= now
  {
  }

  lemma ReceiveAck(y: Sys, p: ServerPacket, now: Time, start: Time, times: seq<Time>)
    requires ValidSys(y) && ScreenInv(y) && p in y.toClient && now >= y.clock && AckInv(y, start, times)
    ensures AckInv(AfterReceive(y, p, now), start,
                   times + (if AcksIn(Cli.Feed(y.client, p, now).actions) != {} then [now] else []))
  {
    hide ScreenInv, Cli.Feed, ClientSide, PacketOk, Cli.Mirrored, Cli.Receive, Cli.Heard, AcksIn;
    var f := Cli.Feed(y.client, p, now);
    FeedAcks(y.client, p, now);
    AcksInEach(AckFor(y.client, p.seqNum));
    OnTheWire(y, p);
    ReceiveExact(y.client, LedgerOf(y), p, now);
    assert times + [] == times;
    if f.outcome.Applied? && Since(now, y.client.lastAckSent) >= 30 {
      AckedNow(start, times, now);
    }
  }

  lemma StepAck(y: Sys, step: Step, start: Time, times: seq<Time>)
    requires ValidSys(y) && Enabled(y, step) && ScreenInv(y) && AckInv(y, start, times)
    ensures AckInv(Next(y, step), start, times + (if Acks(y, step) then [step.now] else []))
  {
    hide ScreenInv, AckInv, Srv.Feed, Srv.Finish, Srv.FedOk, Fits, Cli.Feed, Cli.FeedStdin, Cli.OnWinch, Cli.Tick,
         AfterReceive, AcksIn, Srv.ResetBy, SendTimesAfter, Numbered;
    var c, now := y.client, step.now;
    assert times + [] == times;
    match step.event {
      case ClientReceives(p) => ReceiveAck(y, p, now, start, times);
      case Stdin(buf) =>
        OthersKeepAckTime(c, buf, 0, 0, [], now);
        AckTimeKept(y, Next(y, step), start, times);
      case Winch(cols, rows) =>
        OthersKeepAckTime(c, [], cols, rows, [], now);
        AckTimeKept(y, Next(y, step), start, times);
      case ClientTick(incomplete) =>
        OthersKeepAckTime(c, [], 0, 0, incomplete, now);
        AckTimeKept(y, Next(y, step), start, times);
      case ServerReceives(p, env) =>
        FedFits(y, p, now, env);
        AckTimeKept(y, Next(y, step), start, times);
      case HandshakeArrives(p, env) =>
        FedFits(y, p, now, env);
        AckTimeKept(y, Next(y, step), start, times);
      case ServerTick(echo) =>
        Srv.FinishValid(y.server, [], [], now, echo);
        AckTimeKept(y, Next(y, step), start, times);
      case ServerShutdown => AckTimeKept(y, Next(y, step), start, times);
      case PtyOutput(_, _) => AckTimeKept(y, Next(y, step), start, times);
    }
  }

  lemma AckTimeKept(y: Sys, z: Sys, start: Time, times: seq<Time>)
    requires AckInv(y, start, times) && z.client.lastAckSent == y.client.lastAckSent && z.clock >= y.clock
    ensures AckInv(z, start, times)
  {
  }

  lemma {:induction false} RunAck(g: Config, steps: seq<Step>)
    requires ValidConfig(g) && Run(g, steps).Some? && ValidSys(Init(g))
    ensures AckInv(Run(g, steps).value, g.now, AckTimes(Init(g), steps))
    decreases |steps|
  {
    hide Enabled, Next, ValidSys, Acks;
    if steps != [] {
      hide AckInv, ScreenInv;
      var before := steps[..|steps| - 1];
      RunAck(g, before);
      RunKeeps(g, before);
      StepAck(Run(g, before).value, steps[|steps| - 1], g.now, AckTimes(Init(g), before));
    }
  }

  /** No Ack was sent, and no session begun, during the last 30 ms. */
  predicate AckIsDue(start: Time, times: seq<Time>, now: Time) {
    now - start >= 30 && forall t | t in times :: now - t >= 30
  }

  lemma DueByLast(start: Time, times: seq<Time>, now: Time)
    requires AcksSpaced(start, times) && forall t | t in times :: t <= LastOf(start, times)
    requires start <= LastOf(start, times)
    ensures AckIsDue(start, times, now) <==> now - LastOf(start, times) >= 30
  {
    if times != [] {
      assert times[|times| - 1] in times;
    }
  }

  lemma {:induction false} NotBeforeStart(start: Time, times: seq<Time>)
    requires AcksSpaced(start, times)
    ensures start <= LastOf(start, times)
    decreases |times|
  {
    if |times| > 1 {
      NotBeforeStart(start, times[..|times| - 1]);
    }
  }

  /**
   * On every run: an arriving packet that is applied makes the client paint, and send one Ack, which
   * acknowledges exactly that frame, if and only if none was sent during the last 30 ms. Any other
   * packet sends none. So such Acks are at least 30 ms apart.
   */
  lemma AppliedFrameIsAcknowledged(g: Config, steps: seq<Step>, p: ServerPacket, now: Time)
    requires ValidConfig(g) && Run(g, steps).Some? && ValidSys(Init(g))
    requires p in Run(g, steps).value.toClient && now >= Run(g, steps).value.clock
    ensures var c, times := Run(g, steps).value.client, AckTimes(Init(g), steps);
            var f := Cli.Feed(c, p, now);
            && AcksSpaced(g.now, times)
            && (f.outcome.Applied? ==>
                  f.actions == if AckIsDue(g.now, times, now) then [Cli.Paint, Cli.Send(AckFor(c, p.seqNum))]
                               else [Cli.Paint])
            && (!f.outcome.Applied? ==> AcksIn(f.actions) == {})
  {
    hide RunFrom, Cli.Feed, AckTimes, AcksIn, AcksSpaced, Srv.ValidServer, Cli.Panics, AckIsDue, LastOf;
    var c, times := Run(g, steps).value.client, AckTimes(Init(g), steps);
    RunAck(g, steps);
    NotBeforeStart(g.now, times);
    DueByLast(g.now, times, now);
    FeedAcks(c, p, now);
    AcksInEach(AckFor(c, p.seqNum));
    NeverMissingReference(g, steps, p, now);
  }

  // ----- what the server makes of it -----

  lemma StepKeepsSent(y: Sys, step: Step)
    requires ValidSys(y) && Enabled(y, step)
    ensures y.toServer <= Next(y, step).toServer
  {
    hide Srv.Feed, Srv.Finish, Srv.FedOk, Fits, Cli.Feed, Cli.FeedStdin, Cli.OnWinch, Cli.Tick;
    match step.event {
      case ServerReceives(p, env) => FedFits(y, p, step.now, env);
      case HandshakeArrives(p, env) => FedFits(y, p, step.now, env);
      case ServerTick(echo) => Srv.FinishValid(y.server, [], [], step.now, echo);
      case _ =>
    }
  }

  lemma {:induction false} RunKeepsSent(y: Sys, steps: seq<Step>)
    requires ValidSys(y) && RunFrom(y, steps).Some?
    ensures y.toServer <= RunFrom(y, steps).value.toServer
    decreases |steps|
  {
    hide Enabled, Next, ValidSys;
    if steps != [] {
      RunKeepsSent(y, steps[..|steps| - 1]);
      StepKeepsSent(RunFrom(y, steps[..|steps| - 1]).value, steps[|steps| - 1]);
    }
  }

  lemma ArrivalSends(y: Sys, arrival: Step)
    requires ValidSys(y) && Enabled(y, arrival) && arrival.event.ClientReceives?
    requires var f := Cli.Feed(y.client, arrival.event.serverPacket, arrival.now);
             && f.outcome.Applied?
             && f.actions == [Cli.Paint, Cli.Send(AckFor(y.client, arrival.event.serverPacket.seqNum))]
    ensures AckFor(y.client, arrival.event.serverPacket.seqNum) in Next(y, arrival).toServer
  {
    hide Cli.Feed;
    var q := AckFor(y.client, arrival.event.serverPacket.seqNum);
    assert Cli.Send(q) in [Cli.Paint, Cli.Send(q)];
    assert q in SentBy([Cli.Paint, Cli.Send(q)]);
  }

  /** The job diffs against the frame `n`, with exactly the grid recorded for it. */
  predicate DiffsAgainst(j: Srv.UpdateJob, n: nat, recorded: map<nat, Grid>) {
    n in recorded && j.refSeq == n && j.refState == Some(recorded[n])
  }

  lemma OfTheSession(y: Sys, e: Stretch, q: ClientPacket)
    requires InputInv(y, e) && q in y.toServer
    ensures q.sessionId == y.server.sessionId != 0
  {
    hide ServerIn, Sent;
  }

  /**
   * The Ack of an applied frame is on the wire from then on. Wherever the run goes, when it reaches the
   * server as a higher acknowledgement, the next frame is diffed against exactly that frame, as long as it
   * is at most five numbers old and the server remembers it; otherwise the next frame is a full one.
   */
  lemma AckedFrameIsTheReference(g: Config, steps: seq<Step>, arrival: Step, later: seq<Step>, now: Time, env: Srv.Env)
    requires ValidConfig(g) && Run(g, steps).Some? && ValidSys(Init(g)) && arrival.event.ClientReceives?
    requires Enabled(Run(g, steps).value, arrival)
    requires Cli.Feed(Run(g, steps).value.client, arrival.event.serverPacket, arrival.now).outcome.Applied?
    requires AckIsDue(g.now, AckTimes(Init(g), steps), arrival.now)
    requires Run(g, steps + [arrival] + later).Some?
    ensures var n := arrival.event.serverPacket.seqNum;
            var q, w := AckFor(Run(g, steps).value.client, n), Run(g, steps + [arrival] + later).value;
            && q in w.toServer && q.ack == n
            && (n > w.server.clientAck ==>
                  var job := Srv.Feed(w.server, q, now, env).job;
                  job.Some? ==>
                    if w.server.seqNum <= n + 5 && Find(w.server.history, n).Some?
                    then DiffsAgainst(job.value, n, w.trace.recorded)
                    else job.value.refSeq == 0 && job.value.refState == None)
  {
    hide RunFrom, Cli.Feed, AckTimes, ValidSys, InputInv, PresentStretch, ScreenInv, Srv.Feed, AckIsDue, Next, Find;
    var y, n := Run(g, steps).value, arrival.event.serverPacket.seqNum;
    var q, w := AckFor(y.client, n), Run(g, steps + [arrival] + later).value;
    AppliedFrameIsAcknowledged(g, steps, arrival.event.serverPacket, arrival.now);
    ArrivalSends(y, arrival);
    RunOne(y, arrival);
    RunJoin(g, steps, [arrival]);
    RunJoin(g, steps + [arrival], later);
    RunKeepsSent(Next(y, arrival), later);
    RunIn(g, steps + [arrival] + later);
    RunKeeps(g, steps + [arrival] + later);
    OfTheSession(w, PresentStretch(g, steps + [arrival] + later), q);
    if n > w.server.clientAck {
      AcknowledgedFrameIsTheReference(w.server, q, now, env);
      if Find(w.server.history, n).Some? {
        RememberedIsRecorded(w, n);
      }
    }
  }
}

/** The mirrored screen over every run: what an accepted frame shows, with and without local echo. */
module MirrorRuns {
  import opened Base
  import opened TerminalGrid
  import opened MirroredFrame
  import opened LocalEcho
  import opened Acknowledging
  import opened ClientMirror
  import opened Protocol
  import opened Network
  import opened ScreenChannel
  import opened ScreenRuns
  import Cli = ClientSession

  // ----- the screen channel's theorems -----

  /** On every run, what both ends remember under a number is the grid the server recorded under it. */
  lemma HistoriesAgree(g: Config, steps: seq<Step>)
    requires ValidConfig(g) && Run(g, steps).Some?
    ensures var y := Run(g, steps).value;
            HistoryAgrees(y.client.history, y.trace.recorded) && HistoryAgrees(y.server.history, y.trace.recorded)
  {
    hide Run;
    RunKeeps(g, steps);
  }

  /** On every run, two packets the server sealed under one number are the same packet. */
  lemma ServerSealsEachNumberOnce(g: Config, steps: seq<Step>)
    requires ValidConfig(g) && Run(g, steps).Some?
    ensures SealedOnce(Run(g, steps).value.toClient)
  {
    hide Run;
    RunKeeps(g, steps);
  }

  /**
   * On every run, an arriving packet is never missing its reference and never fails to patch; a newer
   * frame is applied, unless taking the banner down fails over a frame without rows.
   */
  lemma NeverMissingReference(g: Config, steps: seq<Step>, p: ServerPacket, now: Time)
    requires ValidConfig(g) && Run(g, steps).Some? && p in Run(g, steps).value.toClient
    ensures var y := Run(g, steps).value;
            var outcome := Cli.Feed(y.client, p, now).outcome;
            && !outcome.MissingReference? && !outcome.PatchFailed?
            && (outcome.Applied? <==> p.payload.FramePayload? && p.seqNum > y.client.ackSeq && !Cli.Panics(y.client, p))
  {
    hide Run, ScreenInv, Cli.Feed, Cli.Panics;
    RunKeeps(g, steps);
    var y := Run(g, steps).value;
    OnTheWire(y, p);
    ReceiveExact(y.client, LedgerOf(y), p, now);
    Cli.PanicsExactly(y.client, p, now);
  }

  // ----- the prediction queue on every run -----

  predicate QueueOk(c: Cli.Client) {
    QueueInv(c.mirror.queue, c.mirror.epoch, c.seqNum)
  }

  lemma QueueInvRises(queue: seq<PredictionEntry>, epoch: nat, top: nat, top': nat)
    requires QueueInv(queue, epoch, top) && top <= top'
    ensures QueueInv(queue, epoch, top')
  {
  }

  lemma PredictQueue(m: Mirror, bytes: seq<byte>, top: nat)
    requires ValidFrame(m.frame) && QueueInv(m.queue, m.epoch, top)
    ensures var m' := Predict(m, bytes, top + 1); QueueInv(m'.queue, m'.epoch, top + 1)
  {
    var e := EntryFor(m.frame, bytes, top + 1, m.epoch);
    assert forall x :: x in m.queue + [e] <==> x in m.queue || x == e;
    assert forall i | 0 <= i < |m.queue| :: m.queue[i] in m.queue;
  }

  lemma StdinQueue(c: Cli.Client, buf: seq<byte>, now: Time)
    requires Cli.ValidClient(c) && QueueOk(c)
    ensures QueueOk(Cli.FeedStdin(c, buf, now).client)
  {
    hide QueueInv, Predict, EscapeFilter.Filter, Cli.Printable, Cli.CommandActions;
    var f := EscapeFilter.Filter(c.escape, buf);
    var m := Cli.MarkDirty(c.mirror, Cli.Dirtying(f.commands));
    QueueInvRises(m.queue, m.epoch, c.seqNum, c.seqNum + 1);
    PredictQueue(m, f.sent, c.seqNum);
  }

  lemma MirroredQueue(m: Mirror, g: Grid, seqNum: nat, echo: bool, top: nat)
    requires ValidFrame(m.frame) && WellFormed(g) && QueueInv(m.queue, m.epoch, top)
    ensures var m' := Cli.Mirrored(m, g, seqNum, echo); QueueInv(m'.queue, m'.epoch, top)
  {
    hide ApplyFrame, UndoAll;
    ApplyFrameEchoesSurvivors(m, g, seqNum, top);
  }

  lemma AcceptFrameQueue(c: Cli.Client, seqNum: nat, u: FrameUpdate, now: Time)
    requires Cli.ValidClient(c) && QueueOk(c)
    ensures QueueOk(Cli.AcceptFrame(c, seqNum, u, now).client)
  {
    hide Patch, Cli.StartFor, Cli.Mirrored, QueueInv;
    var start := Cli.StartFor(c, u);
    if start.Some? {
      MirroredQueue(c.mirror, Patch(start.value, u).grid, seqNum, u.echo, c.seqNum);
    }
  }

  lemma FeedQueue(c: Cli.Client, p: ServerPacket, now: Time)
    requires Cli.ValidClient(c) && QueueOk(c)
    ensures QueueOk(Cli.Feed(c, p, now).client)
  {
    hide QueueInv, Cli.AcceptFrame, Cli.LossAfter, Cli.RttAfter, Reconcile, MirroredFrame.WithBanner;
    ReconcileRefinesFilter(c.mirror, c.seqNum, p.ack);
    if p.payload.FramePayload? {
      AcceptFrameQueue(Cli.Heard(Cli.Receive(c, p, now), p.seqNum, now), p.seqNum, p.payload.update, now);
    }
  }

  lemma TickQueue(c: Cli.Client, incomplete: seq<Cli.Report>, now: Time)
    requires QueueOk(c)
    ensures QueueOk(Cli.Tick(c, incomplete, now).client)
  {
    hide QueueInv, Cli.Tick, Cli.MarkSent, Cli.Overdue;
    Cli.TickChangesLittle(c, incomplete, now);
    var t := Cli.TickKeepalive(c, now).client;
    assert Cli.Tick(c, incomplete, now).client.mirror.queue == c.mirror.queue;
    assert t.seqNum == c.seqNum || t.seqNum == c.seqNum + 1;
    QueueInvRises(c.mirror.queue, c.mirror.epoch, c.seqNum, t.seqNum);
  }

  lemma WinchQueue(c: Cli.Client, cols: u16, rows: u16, now: Time)
    requires Cli.ValidClient(c)
    ensures QueueOk(Cli.OnWinch(c, cols, rows, now).client)
  {
    hide UndoAll;
  }

  lemma StepQueue(y: Sys, step: Step)
    requires ValidSys(y) && Enabled(y, step) && QueueOk(y.client)
    ensures QueueOk(Next(y, step).client)
  {
    hide QueueInv, Cli.Feed, Cli.FeedStdin, Cli.Tick, Cli.OnWinch, Fits, Srv.Feed, Srv.Finish;
    match step.event {
      case ClientReceives(p) => FeedQueue(y.client, p, step.now);
      case Stdin(buf) => StdinQueue(y.client, buf, step.now);
      case Winch(cols, rows) => WinchQueue(y.client, cols, rows, step.now);
      case ClientTick(incomplete) => TickQueue(y.client, incomplete, step.now);
      case _ =>
    }
  }

  /** On every run the queue carries the current epoch and increasing numbers the client has used. */
  lemma {:induction false} QueueOnEveryRun(g: Config, steps: seq<Step>)
    requires ValidConfig(g) && Run(g, steps).Some?
    ensures QueueOk(Run(g, steps).value.client)
    decreases |steps|
  {
    hide Enabled, Next, ValidSys;
    if steps != [] {
      QueueOnEveryRun(g, steps[..|steps| - 1]);
      StepQueue(Run(g, steps[..|steps| - 1]).value, steps[|steps| - 1]);
    }
  }

  // ----- what an accepted frame shows -----

  lemma {:induction false} TypedFront(e: PredictionEntry, rest: seq<PredictionEntry>)
    ensures Typed([e] + rest) == e.bytes + Typed(rest)
    decreases |rest|
  {
    if rest == [] {
      assert [e] + rest == [e] && [e][..0] == [];
      assert Typed([e]) == Typed([]) + e.bytes;
    } else {
      assert ([e] + rest)[..|rest|] == [e] + rest[..|rest| - 1];
      TypedFront(e, rest[..|rest| - 1]);
    }
  }

  lemma {:induction false} SameKeysSurvive(a: seq<PredictionEntry>, b: seq<PredictionEntry>, ack: nat)
    requires SameKeys(a, b)
    ensures Typed(Survivors(a, ack)) == Typed(Survivors(b, ack))
    decreases |a|
  {
    if a == [] {
      assert b == [];
    } else {
      hide Typed;
      SameKeysSurvive(a[1..], b[1..], ack);
      TypedFront(a[0], Survivors(a[1..], ack));
      TypedFront(b[0], Survivors(b[1..], ack));
      assert [] + Survivors(a[1..], ack) == Survivors(a[1..], ack)
          && [] + Survivors(b[1..], ack) == Survivors(b[1..], ack);
    }
  }

  lemma {:induction false} SurviveBoth(queue: seq<PredictionEntry>, a: nat, b: nat)
    ensures Survivors(Survivors(queue, a), b) == Survivors(queue, Max(a, b))
    decreases |queue|
  {
    if queue != [] {
      SurviveBoth(queue[1..], a, b);
      var rest := Survivors(queue[1..], a);
      assert ([queue[0]] + rest)[1..] == rest;
      assert [] + rest == rest;
    }
  }

  /** Acknowledging first and applying the frame then leaves the keystrokes above both numbers. */
  lemma KeysAboveBoth(m: Mirror, top: nat, ack: nat, seqNum: nat)
    requires ValidFrame(m.frame) && QueueInv(m.queue, m.epoch, top)
    ensures Typed(Survivors(Reconcile(m, ack).queue, seqNum)) == Typed(Survivors(m.queue, Max(ack, seqNum)))
    ensures QueueInv(Reconcile(m, ack).queue, m.epoch, top)
  {
    hide QueueInv, Typed, Survivors, PruneFront, Replay;
    PruneIsFilter(m.queue, m.epoch, top, ack);
    ReplayEchoes(m.(queue := []), Survivors(m.queue, ack));
    SameKeysSurvive(Reconcile(m, ack).queue, Survivors(m.queue, ack), seqNum);
    SurviveBoth(m.queue, ack, seqNum);
    ReconcileRefinesFilter(m, top, ack);
  }

  /** The mirror after a frame: under the predictions the grid, on top of it the keystrokes still pending. */
  ghost predicate ShowsFrame(m: Mirror, t: Grid, echo: bool, pending: seq<byte>)
    requires ValidFrame(m.frame)
  {
    && Shows(Unpredicted(m), t)
    && (echo ==> m.frame == Echoed(Unpredicted(m), pending))
    && (!echo ==> Shows(m.frame, t) && m.queue == [])
  }

  /** Whether the banner just went away makes no difference to what a frame shows. */
  lemma MirroredShows(m: Mirror, heard: Mirror, t: Grid, ack: nat, seqNum: nat, echo: bool, top: nat)
    requires ValidFrame(m.frame) && ValidFrame(heard.frame) && WellFormed(t) && QueueInv(m.queue, m.epoch, top)
    requires heard.queue == Reconcile(m, ack).queue && heard.epoch == m.epoch
    ensures ShowsFrame(Cli.Mirrored(heard, t, seqNum, echo), t, echo, Typed(Survivors(m.queue, Max(ack, seqNum))))
  {
    hide QueueInv, Typed, Survivors, Echoed, Reconcile, ApplyFrame, Shows;
    KeysAboveBoth(m, top, ack, seqNum);
    ApplyFrameUnpredicted(heard, t, seqNum);
    ApplyFrameEchoesSurvivors(heard, t, seqNum, top);
  }

  lemma HeardQueue(c: Cli.Client, p: ServerPacket, now: Time)
    requires Cli.ValidClient(c)
    ensures var m := Cli.Heard(Cli.Receive(c, p, now), p.seqNum, now).mirror;
            ValidFrame(m.frame) && m.queue == Reconcile(c.mirror, p.ack).queue && m.epoch == c.mirror.epoch
  {
    hide Reconcile, Cli.LossAfter, Cli.RttAfter, MirroredFrame.WithBanner;
  }

  /**
   * On every run, an accepted frame ends the client with exactly the grid the server recorded for it:
   * as the newest remembered state, as the screen below the predictions, and as the screen itself
   * when echo is off. With echo on, the keystrokes numbered above both the frame and its ack are typed on it.
   */
  lemma AcceptedFrameIsExact(g: Config, steps: seq<Step>, p: ServerPacket, now: Time)
    requires ValidConfig(g) && Run(g, steps).Some? && p in Run(g, steps).value.toClient
    requires p.payload.FramePayload? && p.seqNum > Run(g, steps).value.client.ackSeq
    requires !Cli.Panics(Run(g, steps).value.client, p)
    ensures var y := Run(g, steps).value;
            var c := Cli.Feed(y.client, p, now).client;
            && p.seqNum in y.trace.recorded && c.history != []
            && c.history[|c.history| - 1] == Snapshot(p.seqNum, y.trace.recorded[p.seqNum])
            && ShowsFrame(c.mirror, y.trace.recorded[p.seqNum], p.payload.update.echo,
                          Typed(Survivors(y.client.mirror.queue, Max(p.ack, p.seqNum))))
  {
    hide Run, ScreenInv, Cli.Feed, ClientSide, PacketOk, ShowsFrame, Cli.Mirrored, Reconcile, Survivors, Typed,
         Cli.Panics, Cli.Receive, Cli.Heard;
    RunKeeps(g, steps);
    QueueOnEveryRun(g, steps);
    var y := Run(g, steps).value;
    OnTheWire(y, p);
    ReceiveExact(y.client, LedgerOf(y), p, now);
    Cli.PanicsExactly(y.client, p, now);
    HeardQueue(y.client, p, now);
    MirroredShows(y.client.mirror, Cli.Heard(Cli.Receive(y.client, p, now), p.seqNum, now).mirror,
                  y.trace.recorded[p.seqNum], p.ack, p.seqNum, p.payload.update.echo, y.client.seqNum);
  }

  // ----- predictions come off again -----

  /** Steps between two packets to the client: typing, ticks, and anything at the server. */
  predicate Quiet(steps: seq<Step>) {
    forall s | s in steps :: !s.event.ClientReceives? && !s.event.Winch?
  }

  lemma StdinKeepsUnpredicted(c: Cli.Client, buf: seq<byte>, now: Time, t: Grid)
    requires Cli.ValidClient(c) && Shows(Unpredicted(c.mirror), t)
    ensures Shows(Unpredicted(Cli.FeedStdin(c, buf, now).client.mirror), t)
  {
    hide Predict, EscapeFilter.Filter, Cli.Printable, Cli.CommandActions;
    var f := EscapeFilter.Filter(c.escape, buf);
    var m := Cli.MarkDirty(c.mirror, Cli.Dirtying(f.commands));
    MarkDirtyKeepsUnpredicted(c.mirror, Cli.Dirtying(f.commands), t);
    PredictKeepsUnpredicted(m, f.sent, c.seqNum + 1);
  }

  lemma MarkDirtyKeepsUnpredicted(m: Mirror, dirty: bool, t: Grid)
    requires ValidFrame(m.frame) && Shows(Unpredicted(m), t)
    ensures Shows(Unpredicted(Cli.MarkDirty(m, dirty)), t)
  {
    MarksKeepUnpredicted(m, Cli.MarkDirty(m, dirty), t);
  }

  /** Undoing predictions does not look at the dirty marks. */
  lemma MarksKeepUnpredicted(m: Mirror, m': Mirror, t: Grid)
    requires ValidFrame(m.frame) && ValidFrame(m'.frame) && Shows(Unpredicted(m), t) && Cli.SameButMarks(m, m')
    ensures Shows(Unpredicted(m'), t)
  {
    UndoIgnoresMarks(m.frame, m.queue, m'.frame.dirty, m'.frame.rowDirty);
  }

  function Marked(f: Frame, dirty: bool, rowDirty: seq<bool>): (f': Frame)
    requires ValidFrame(f) && |rowDirty| == |f.rowDirty|
    ensures ValidFrame(f')
  {
    f.(dirty := dirty, rowDirty := rowDirty)
  }

  lemma {:induction false} UndoIgnoresMarks(f: Frame, queue: seq<PredictionEntry>, dirty: bool, rowDirty: seq<bool>)
    requires ValidFrame(f) && |rowDirty| == |f.rowDirty|
    ensures var u := UndoAll(f, queue);
            && |u.rowDirty| == |f.rowDirty|
            && UndoAll(Marked(f, dirty, rowDirty), queue) == Marked(u, dirty, rowDirty)
    decreases |queue|
  {
    if queue != [] {
      UndoEntryIgnoresMarks(f, queue[|queue| - 1], dirty, rowDirty);
      UndoIgnoresMarks(UndoEntry(f, queue[|queue| - 1]), queue[..|queue| - 1], dirty, rowDirty);
    }
  }

  lemma UndoEntryIgnoresMarks(f: Frame, e: PredictionEntry, dirty: bool, rowDirty: seq<bool>)
    requires ValidFrame(f) && |rowDirty| == |f.rowDirty|
    ensures var u := UndoEntry(f, e);
            && |u.rowDirty| == |f.rowDirty|
            && UndoEntry(Marked(f, dirty, rowDirty), e) == Marked(u, dirty, rowDirty)
  {
    RestoreIgnoresMarks(f.(cursorX := e.oldCursorX, cursorY := e.oldCursorY), e.oldCells, dirty, rowDirty);
  }

  lemma {:induction false} RestoreIgnoresMarks(f: Frame, saved: seq<OldCell>, dirty: bool, rowDirty: seq<bool>)
    requires ValidFrame(f) && |rowDirty| == |f.rowDirty|
    ensures RestoreCells(Marked(f, dirty, rowDirty), saved) == Marked(RestoreCells(f, saved), dirty, rowDirty)
    decreases |saved|
  {
    if saved != [] {
      RestoreIgnoresMarks(RestoreCell(f, saved[|saved| - 1]), saved[..|saved| - 1], dirty, rowDirty);
    }
  }

  lemma QuietStep(y: Sys, step: Step, t: Grid)
    requires ValidSys(y) && Enabled(y, step) && Shows(Unpredicted(y.client.mirror), t)
    requires !step.event.ClientReceives? && !step.event.Winch?
    ensures Shows(Unpredicted(Next(y, step).client.mirror), t)
  {
    hide Shows, Unpredicted, Cli.FeedStdin, Cli.Tick, Fits, Srv.Feed, Srv.Finish;
    match step.event {
      case Stdin(buf) => StdinKeepsUnpredicted(y.client, buf, step.now, t);
      case ClientTick(incomplete) => TickKeepsUnpredicted(y.client, incomplete, step.now, t);
      case _ =>
    }
  }

  lemma TickKeepsUnpredicted(c: Cli.Client, incomplete: seq<Cli.Report>, now: Time, t: Grid)
    requires Cli.ValidClient(c) && Shows(Unpredicted(c.mirror), t)
    ensures Cli.ValidClient(Cli.Tick(c, incomplete, now).client)
    ensures Shows(Unpredicted(Cli.Tick(c, incomplete, now).client.mirror), t)
  {
    hide Cli.Tick, Cli.TickArq, Cli.TickKeepalive, Shows, UndoAll;
    Cli.TickValid(c, incomplete, now);
    Cli.TickChangesLittle(c, incomplete, now);
    MarksKeepUnpredicted(c.mirror, Cli.Tick(c, incomplete, now).client.mirror, t);
  }

  lemma {:induction false} QuietRun(y: Sys, steps: seq<Step>, t: Grid)
    requires ValidSys(y) && Shows(Unpredicted(y.client.mirror), t) && RunFrom(y, steps).Some? && Quiet(steps)
    ensures Shows(Unpredicted(RunFrom(y, steps).value.client.mirror), t)
    decreases |steps|
  {
    hide Enabled, Next, ValidSys, Shows, Unpredicted;
    if steps != [] {
      QuietRun(y, steps[..|steps| - 1], t);
      QuietStep(RunFrom(y, steps[..|steps| - 1]).value, steps[|steps| - 1], t);
    }
  }

  /** However much is typed after an accepted frame, aborting the predictions shows the recorded grid again. */
  lemma AbortShowsLastFrame(g: Config, steps: seq<Step>, arrival: Step, quiet: seq<Step>)
    requires ValidConfig(g) && Run(g, steps).Some? && arrival.event.ClientReceives?
             && Enabled(Run(g, steps).value, arrival)
    requires var p := arrival.event.serverPacket;
             p.payload.FramePayload? && p.seqNum > Run(g, steps).value.client.ackSeq
                 && !Cli.Panics(Run(g, steps).value.client, p)
    requires Quiet(quiet) && RunFrom(Next(Run(g, steps).value, arrival), quiet).Some?
    ensures var y := Run(g, steps).value;
            var m := RunFrom(Next(y, arrival), quiet).value.client.mirror;
            var n := arrival.event.serverPacket.seqNum;
            n in y.trace.recorded && Shows(Abort(m).frame, y.trace.recorded[n])
  {
    hide Run, RunFrom, Cli.Feed, Echoed, Survivors, Typed, UndoAll, Fits, Cli.Panics;
    Cli.PanicsExactly(Run(g, steps).value.client, arrival.event.serverPacket, arrival.now);
    var y, p := Run(g, steps).value, arrival.event.serverPacket;
    AcceptedFrameIsExact(g, steps, p, arrival.now);
    QuietRun(Next(y, arrival), quiet, y.trace.recorded[p.seqNum]);
  }
}

/** What the client asks to be painted again, and what its other entry points do besides sending. */
module Repainting {
  import opened Base
  import opened TerminalGrid
  import opened MirroredFrame
  import opened LocalEcho
  import opened ClientMirror
  import opened EscapeFilter
  import opened Protocol
  import opened MirrorRuns
  import opened EchoRuns
  import Cli = ClientSession

  // ----- echoing and undoing leave the marks alone -----

  predicate SameMarks(f: Frame, g: Frame) {
    f.dirty == g.dirty && f.rowDirty == g.rowDirty
  }

  lemma EchoKeepsMarks(f: Frame, bytes: seq<byte>)
    requires ValidFrame(f)
    ensures SameMarks(Echoed(f, bytes), f)
  {
    hide Echoed;
    assert Marked(f, f.dirty, f.rowDirty) == f;
    EchoIgnoresMarks(f, bytes, f.dirty, f.rowDirty);
  }

  lemma ReconcileKeepsMarks(m: Mirror, ack: nat)
    requires ValidFrame(m.frame)
    ensures SameMarks(Reconcile(m, ack).frame, m.frame)
  {
    hide Echoed, PruneFront, Replay;
    ReplayEchoes(m.(queue := []), PruneFront(m.queue, ack, m.epoch));
    EchoKeepsMarks(m.frame, Typed(PruneFront(m.queue, ack, m.epoch)));
  }

  lemma AbortKeepsMarks(m: Mirror)
    requires ValidFrame(m.frame)
    ensures SameMarks(Abort(m).frame, m.frame)
  {
    hide UndoAll;
    assert Marked(m.frame, m.frame.dirty, m.frame.rowDirty) == m.frame;
    UndoIgnoresMarks(m.frame, m.queue, m.frame.dirty, m.frame.rowDirty);
  }

  // ----- stdin and resizes -----

  lemma CommandsAct(cs: seq<EscapeCommand>)
    ensures var ran := Cli.CommandActions(cs);
            && (Cli.Quit in ran <==> Disconnect in cs) && (Cli.SuspendSelf in ran <==> Suspend in cs)
            && (Cli.ShowHelp in ran <==> Help in cs) && (Cli.Paint in ran <==> ToggleOverlay in cs)
  {
    var ran := Cli.CommandActions(cs);
    forall c | c in cs ensures Cli.CommandAction(c) in ran {
      var i :| 0 <= i < |cs| && cs[i] == c;
      assert ran[i] == Cli.CommandAction(c);
    }
    forall a | a in ran ensures exists c :: c in cs && a == Cli.CommandAction(c) {
      var i :| 0 <= i < |ran| && ran[i] == a;
      assert cs[i] in cs;
    }
  }

  /** Something is sent of this read, it is all printable, and echo is on. */
  predicate Predicts(c: Cli.Client, f: Filtered) {
    !f.Disconnected() && f.sent != [] && c.echoEnabled && AllPrintable(f.sent)
  }

  /**
   * A read of stdin quits, suspends and shows help exactly for those commands, asks for a repaint exactly when
   * the overlay is toggled or keys are predicted, and marks the frame dirty for every command but the
   * disconnect.
   */
  lemma StdinActs(c: Cli.Client, buf: seq<byte>, now: Time)
    requires Cli.ValidClient(c)
    ensures var f, o := Filter(c.escape, buf), Cli.FeedStdin(c, buf, now);
            && (Cli.Quit in o.actions <==> Disconnect in f.commands)
            && (Cli.SuspendSelf in o.actions <==> Suspend in f.commands)
            && (Cli.ShowHelp in o.actions <==> Help in f.commands)
            && (Cli.Paint in o.actions <==> ToggleOverlay in f.commands || Predicts(c, f))
            && (o.client.mirror.frame.dirty <==>
                  c.mirror.frame.dirty || Suspend in f.commands || Help in f.commands || ToggleOverlay in f.commands)
            && o.client.mirror.frame.rowDirty == c.mirror.frame.rowDirty
  {
    hide Filter, Cli.CommandActions, Cli.Dirtying, Echoed;
    var f := Filter(c.escape, buf);
    CommandsAct(f.commands);
    DirtyingIs(f.commands);
    EchoKeepsMarks(Cli.MarkDirty(c.mirror, Cli.Dirtying(f.commands)).frame, f.sent);
  }

  /** The action carries out the command. */
  predicate CarriesOut(a: Cli.ClientAction, c: EscapeCommand) {
    match c
    case Disconnect => a == Cli.Quit
    case Suspend => a == Cli.SuspendSelf
    case Help => a == Cli.ShowHelp
    case ToggleOverlay => a == Cli.Paint
  }

  /** The commands come first, in the order typed; then keys that are shown at once; the packet goes out last. */
  lemma StdinActsInOrder(c: Cli.Client, buf: seq<byte>, now: Time)
    requires Cli.ValidClient(c)
    ensures var f, o := Filter(c.escape, buf), Cli.FeedStdin(c, buf, now).actions;
            && |o| >= |f.commands| && (forall i | 0 <= i < |f.commands| :: CarriesOut(o[i], f.commands[i]))
            && if f.sent == [] || Disconnect in f.commands then |o| == |f.commands|
               else && |o| == |f.commands| + (if Predicts(c, f) then 2 else 1)
                    && o[|o| - 1].Send? && o[|o| - 1].packet.payload == Keystrokes(f.sent)
                    && (Predicts(c, f) ==> o[|o| - 2] == Cli.Paint)
  {
    hide Filter, Echoed, Cli.Dirtying;
  }

  lemma DirtyingIs(cs: seq<EscapeCommand>)
    ensures Cli.Dirtying(cs) <==> Suspend in cs || Help in cs || ToggleOverlay in cs
  {
  }

  /** A resize is sent once, and everything is painted again. */
  lemma WinchActs(c: Cli.Client, cols: u16, rows: u16, now: Time)
    requires Cli.ValidClient(c)
    ensures var o := Cli.OnWinch(c, cols, rows, now);
            && o.actions == [Cli.Send(ClientPacket(c.sessionId, c.seqNum + 1, c.ackSeq, Resize(cols, rows))), Cli.Paint]
            && o.client.mirror.frame.dirty && o.client.mirror.frame.rowDirty == c.mirror.frame.rowDirty
  {
    hide Abort;
    AbortKeepsMarks(c.mirror);
  }

  // ----- ticks -----

  lemma {:induction false} NacksPaintNothing(c: Cli.Client, reports: seq<Cli.Report>, now: Time)
    ensures Cli.Paint !in Cli.NackAll(c, reports, now).actions
    decreases |reports|
  {
    if reports != [] {
      NacksPaintNothing(c, reports[..|reports| - 1], now);
    }
  }

  /**
   * A tick asks for a repaint exactly when the outage banner goes up or down or the overlay's figures are a
   * second old, which then start over; the banner is up after five seconds of silence, and a banner that
   * moves makes the frame dirty.
   */
  lemma TickActs(c: Cli.Client, incomplete: seq<Cli.Report>, now: Time)
    ensures var k := Cli.Tick(c, incomplete, now);
            var silent := Since(now, c.lastRecv) > 5000;
            var figures := Since(now, c.lastTelemetry) >= 1000;
            && (Cli.Paint in k.later <==> c.reconnecting != silent || figures) && Cli.Paint !in k.before
            && k.client.reconnecting == silent
            && k.client.lastTelemetry == (if figures then now else c.lastTelemetry)
            && (c.reconnecting != silent ==> k.client.mirror.frame.dirty)
  {
    hide Cli.TickArq, Cli.TickKeepalive, Cli.TickBanner, Cli.TickTelemetry, Cli.TickNack;
    var t := Cli.TickKeepalive(c, now);
    var c2 := Cli.TickArq(t.client, now);
    var c3 := Cli.TickBanner(c2, now).client;
    var c4 := Cli.TickTelemetry(c3, now).client;
    EarlierActs(c, now);
    EarlierActs(t.client, now);
    BannerActs(c2, now);
    FiguresAct(c3, now);
    Cli.TickNackChangesLittle(c4, incomplete, now);
    NackPaintsNothing(c4, incomplete, now);
  }

  lemma BannerActs(c: Cli.Client, now: Time)
    ensures var t, silent := Cli.TickBanner(c, now), Since(now, c.lastRecv) > 5000;
            && (Cli.Paint in t.actions <==> c.reconnecting != silent) && t.client.reconnecting == silent
            && t.client.lastTelemetry == c.lastTelemetry
            && (c.reconnecting != silent ==> t.client.mirror.frame.dirty)
  {
    hide Cli.Backoff;
  }

  lemma FiguresAct(c: Cli.Client, now: Time)
    ensures var t, figures := Cli.TickTelemetry(c, now), Since(now, c.lastTelemetry) >= 1000;
            && (Cli.Paint in t.actions <==> figures)
            && t.client == c.(lastTelemetry := if figures then now else c.lastTelemetry)
  {
  }

  lemma NackPaintsNothing(c: Cli.Client, incomplete: seq<Cli.Report>, now: Time)
    ensures Cli.Paint !in Cli.TickNack(c, incomplete, now).actions
  {
    hide Cli.NackAll;
    NacksPaintNothing(c.(lastNack := now), incomplete, now);
  }

  lemma EarlierActs(c: Cli.Client, now: Time)
    ensures var t := Cli.TickKeepalive(c, now);
            && Cli.Paint !in t.actions && t.client.reconnecting == c.reconnecting && t.client.lastRecv == c.lastRecv
            && t.client.lastTelemetry == c.lastTelemetry
    ensures var u := Cli.TickArq(c, now);
            && u.reconnecting == c.reconnecting && u.lastRecv == c.lastRecv && u.lastTelemetry == c.lastTelemetry
  {
    hide Cli.Overdue, Cli.MarkSent;
  }

  // ----- the end of an outage -----

  /** The last row is to be painted again. */
  predicate LastRowMarked(f: Frame) {
    f.dirty && |f.rowDirty| == f.rows && (f.rows > 0 ==> f.rowDirty[f.rows - 1])
  }

  lemma UpdateKeepsMark(f: Frame, g: Grid)
    requires ValidFrame(f) && WellFormed(g) && LastRowMarked(f)
    ensures LastRowMarked(UpdateFrom(f, g))
  {
  }

  lemma MirroredMark(m: Mirror, g: Grid, seqNum: nat, echo: bool)
    requires ValidFrame(m.frame) && WellFormed(g) && LastRowMarked(m.frame)
    ensures LastRowMarked(Cli.Mirrored(m, g, seqNum, echo).frame)
  {
    hide Reconcile, UpdateFrom, Abort;
    var updated := m.(frame := UpdateFrom(m.frame, g).(lastSeq := seqNum));
    UpdateKeepsMark(m.frame, g);
    ReconcileKeepsMarks(updated, seqNum);
    ReconcileKeepsShape(updated, seqNum);
    AbortKeepsMarks(ApplyFrame(m, g, seqNum));
    AbortKeepsShape(ApplyFrame(m, g, seqNum));
  }

  lemma {:induction false} UndoKeepsShape(f: Frame, queue: seq<PredictionEntry>)
    requires ValidFrame(f)
    ensures SameShape(UndoAll(f, queue), f)
    decreases |queue|
  {
    if queue != [] {
      UndoKeepsShape(UndoEntry(f, queue[|queue| - 1]), queue[..|queue| - 1]);
    }
  }

  lemma AbortKeepsShape(m: Mirror)
    requires ValidFrame(m.frame)
    ensures SameShape(Abort(m).frame, m.frame)
  {
    UndoKeepsShape(m.frame, m.queue);
  }

  lemma HeardMark(c: Cli.Client, p: ServerPacket, now: Time)
    requires Cli.ValidClient(c) && c.reconnecting && c.mirror.frame.rows > 0
    ensures var d := Cli.Heard(Cli.Receive(c, p, now), p.seqNum, now);
            !d.reconnecting && LastRowMarked(d.mirror.frame) && d.history == c.history
  {
    hide Reconcile, Cli.LossAfter, Cli.RttAfter;
    ReconcileKeepsShape(c.mirror, p.ack);
  }

  lemma AcceptFrameMark(c: Cli.Client, seqNum: nat, u: FrameUpdate, now: Time)
    requires Cli.ValidClient(c) && !c.reconnecting && LastRowMarked(c.mirror.frame)
    ensures var f := Cli.AcceptFrame(c, seqNum, u, now);
            && !f.client.reconnecting && LastRowMarked(f.client.mirror.frame)
            && (f.outcome.Applied? ==> f.client.mirror.frame.lastSeq == seqNum)
  {
    hide Patch, Cli.StartFor, Cli.Mirrored;
    var start := Cli.StartFor(c, u);
    if start.Some? {
      MirroredMark(c.mirror, Patch(start.value, u).grid, seqNum, u.echo);
      MirroredNumber(c.mirror, Patch(start.value, u).grid, seqNum, u.echo);
    }
  }

  /** The mirror carries the number of the frame it shows. */
  lemma MirroredNumber(m: Mirror, g: Grid, seqNum: nat, echo: bool)
    requires ValidFrame(m.frame)
    ensures Cli.Mirrored(m, g, seqNum, echo).frame.lastSeq == seqNum
  {
    hide UpdateFrom, TypeBytes;
    var updated := m.(frame := UpdateFrom(m.frame, g).(lastSeq := seqNum));
    var entries := PruneFront(updated.queue, seqNum, updated.epoch);
    ReplayEchoes(updated.(queue := []), entries);
    EchoKeepsNumber(Typing(updated.frame, []), Typed(entries));
    UndoKeepsNumber(ApplyFrame(m, g, seqNum).frame, ApplyFrame(m, g, seqNum).queue);
  }

  lemma {:induction false} EchoKeepsNumber(t: Typing, bytes: seq<byte>)
    requires ValidFrame(t.frame)
    ensures TypeBytes(t, bytes).frame.lastSeq == t.frame.lastSeq
    decreases |bytes|
  {
    if bytes != [] {
      EchoKeepsNumber(t, bytes[..|bytes| - 1]);
    }
  }

  lemma {:induction false} UndoKeepsNumber(f: Frame, queue: seq<PredictionEntry>)
    requires ValidFrame(f)
    ensures UndoAll(f, queue).lastSeq == f.lastSeq
    decreases |queue|
  {
    if queue != [] {
      UndoKeepsNumber(UndoEntry(f, queue[|queue| - 1]), queue[..|queue| - 1]);
    }
  }

  /**
   * The newer packet that ends an outage takes the banner down and has the row under it painted again, whatever
   * the packet does to the screen; and an applied frame leaves its number on the mirror.
   */
  lemma OutageEndsRepainted(c: Cli.Client, p: ServerPacket, now: Time)
    requires Cli.ValidClient(c) && c.reconnecting && c.mirror.frame.rows > 0 && p.seqNum > c.ackSeq
    ensures var f := Cli.Feed(c, p, now);
            && !f.client.reconnecting && LastRowMarked(f.client.mirror.frame)
            && (f.outcome.Applied? ==> f.client.mirror.frame.lastSeq == p.seqNum)
  {
    hide Cli.Heard, Cli.Receive, Cli.AcceptFrame, LastRowMarked;
    HeardMark(c, p, now);
    ReceiveKeepsRows(c, p, now);
    if p.payload.FramePayload? {
      AcceptFrameMark(Cli.Heard(Cli.Receive(c, p, now), p.seqNum, now), p.seqNum, p.payload.update, now);
    }
  }

  lemma ReceiveKeepsRows(c: Cli.Client, p: ServerPacket, now: Time)
    requires Cli.ValidClient(c)
    ensures var d := Cli.Receive(c, p, now);
            d.ackSeq == c.ackSeq && d.reconnecting == c.reconnecting && d.mirror.frame.rows == c.mirror.frame.rows
  {
    hide Reconcile, Cli.LossAfter, Cli.RttAfter;
    ReconcileKeepsShape(c.mirror, p.ack);
  }
}

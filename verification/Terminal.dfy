/** The client terminal: authoritative frames with predictions on top (src/client/terminal.rs). */
module ClientMirror {
  import opened Base
  import opened TerminalGrid
  import opened MirroredFrame
  import opened LocalEcho

  /** The new frame, then the pending predictions again; the server's number prunes the queue. */
  function ApplyFrame(m: Mirror, g: Grid, serverSeq: nat): (m': Mirror)
    requires ValidFrame(m.frame)
    ensures ValidFrame(m'.frame) && m'.epoch == m.epoch
  {
    Reconcile(m.(frame := UpdateFrom(m.frame, g).(lastSeq := serverSeq)), serverSeq)
  }

  function ShowBanner(m: Mirror, reconnecting: bool): (m': Mirror)
    ensures m' == m.(frame := m.frame.(dirty := true, rowDirty := m'.frame.rowDirty))
    ensures ValidFrame(m.frame) ==> ValidFrame(m'.frame)
  {
    m.(frame := WithBanner(m.frame, reconnecting))
  }

  class ClientTerminal {
    const frame: TerminalFrame
    const echo: LocalEchoEngine

    function Value(): (r: Mirror)
      reads frame, echo
    {
      echo.On(frame)
    }

    constructor (cols: u16, rows: u16)
      ensures fresh(frame) && fresh(echo) && ValidFrame(Value().frame)
      ensures Value().queue == [] && Value().epoch == 0
    {
      frame := new TerminalFrame(cols, rows);
      echo := new LocalEchoEngine();
    }

    method ApplyGrid(g: Grid, serverSeq: nat) returns (resized: bool)
      requires ValidFrame(Value().frame)
      modifies frame, echo
      ensures Value() == ApplyFrame(old(Value()), g, serverSeq)
    {
      resized := frame.UpdateFromGridState(g);
      frame.lastSeq := serverSeq;
      echo.ReconcileFrame(frame, serverSeq);
    }

    method PredictInput(bytes: seq<byte>, clientSeq: nat)
      requires ValidFrame(Value().frame)
      modifies frame, echo
      ensures Value() == Predict(old(Value()), bytes, clientSeq)
    {
      echo.ApplyKeystrokes(frame, bytes, clientSeq);
    }

    method Acknowledge(serverAck: nat)
      requires ValidFrame(Value().frame)
      modifies frame, echo
      ensures Value() == Reconcile(old(Value()), serverAck)
    {
      echo.ReconcileFrame(frame, serverAck);
    }

    method AbortPrediction()
      requires ValidFrame(Value().frame)
      modifies frame, echo
      ensures Value() == Abort(old(Value()))
    {
      echo.AbortPredictions(frame);
    }

    method SetReconnecting(reconnecting: bool)
      requires ValidFrame(Value().frame) && (reconnecting || Value().frame.rows > 0)
      modifies frame`dirty, frame`rowDirty
      ensures Value() == ShowBanner(old(Value()), reconnecting)
    {
      frame.SetReconnecting(reconnecting);
    }

    method MarkDirty()
      modifies frame
      ensures Value() == old(Value()).(frame := old(Value()).frame.(dirty := true))
    {
      frame.dirty := true;
    }
  }

  // ----- an authoritative frame under its predictions -----

  /** Taking all predictions off an applied frame shows exactly the grid. */
  lemma ApplyFrameUnpredicted(m: Mirror, g: Grid, serverSeq: nat)
    requires ValidFrame(m.frame) && WellFormed(g)
    ensures Shows(Unpredicted(ApplyFrame(m, g, serverSeq)), g)
  {
    var m1 := m.(frame := UpdateFrom(m.frame, g).(lastSeq := serverSeq));
    UpdateShows(m.frame, g);
    ReplayKeepsUnpredicted(m1.(queue := []), PruneFront(m1.queue, serverSeq, m1.epoch));
  }

  datatype Input = Input(bytes: seq<byte>, clientSeq: nat)

  function PredictAll(m: Mirror, inputs: seq<Input>): (m': Mirror)
    requires ValidFrame(m.frame)
    ensures ValidFrame(m'.frame)
  {
    if inputs == [] then m
    else
      var i := inputs[|inputs| - 1];
      Predict(PredictAll(m, inputs[..|inputs| - 1]), i.bytes, i.clientSeq)
  }

  lemma {:induction false} PredictAllKeepsUnpredicted(m: Mirror, inputs: seq<Input>)
    requires ValidFrame(m.frame)
    ensures Unpredicted(PredictAll(m, inputs)) == Unpredicted(m)
    decreases |inputs|
  {
    if inputs != [] {
      var before, i := inputs[..|inputs| - 1], inputs[|inputs| - 1];
      PredictAllKeepsUnpredicted(m, before);
      PredictKeepsUnpredicted(PredictAll(m, before), i.bytes, i.clientSeq);
    }
  }

  /** However much was typed since the frame, aborting restores exactly the authoritative screen. */
  lemma AbortRestoresFrame(m: Mirror, g: Grid, serverSeq: nat, inputs: seq<Input>)
    requires ValidFrame(m.frame) && WellFormed(g)
    ensures var m' := Abort(PredictAll(ApplyFrame(m, g, serverSeq), inputs));
            Shows(m'.frame, g) && m'.queue == []
  {
    ApplyFrameUnpredicted(m, g, serverSeq);
    PredictAllKeepsUnpredicted(ApplyFrame(m, g, serverSeq), inputs);
  }

  /** The screen with predictions: the grid with the surviving keystrokes typed on it. */
  lemma ApplyFrameEchoesSurvivors(m: Mirror, g: Grid, serverSeq: nat, top: nat)
    requires ValidFrame(m.frame) && WellFormed(g) && QueueInv(m.queue, m.epoch, top)
    ensures var m' := ApplyFrame(m, g, serverSeq);
            m'.frame == Echoed(Unpredicted(m'), Typed(Survivors(m.queue, serverSeq)))
    ensures QueueInv(ApplyFrame(m, g, serverSeq).queue, m.epoch, top)
  {
    var m1 := m.(frame := UpdateFrom(m.frame, g).(lastSeq := serverSeq));
    ReconcileRefinesFilter(m1, top, serverSeq);
    ReplayKeepsUnpredicted(m1.(queue := []), PruneFront(m1.queue, serverSeq, m1.epoch));
  }

  // ----- acknowledging between frames -----

  /** An acknowledgement alone makes the predictions shown so far part of what an abort goes back to. */
  lemma AcknowledgeKeepsPredictions(m: Mirror, ack: nat)
    requires ValidFrame(m.frame)
    ensures Unpredicted(Reconcile(m, ack)) == m.frame
  {
    ReplayKeepsUnpredicted(m.(queue := []), PruneFront(m.queue, ack, m.epoch));
  }

  /** So it is exact only when the pending predictions change nothing: one typed "x" is not undone any more. */
  lemma AcknowledgedPredictionStays() returns (m: Mirror, g: Grid)
    ensures ValidFrame(m.frame) && Shows(Unpredicted(m), g)
    ensures !Shows(Unpredicted(Reconcile(m, 0)), g)
  {
    g := BlankGrid(2, 1);
    var f := Frame(2, 1, g.cells, [true], 0, 0, false, false, 0, false);
    var m0 := Mirror(f, [], 0);
    m := Predict(m0, [0x78], 1);
    PredictKeepsUnpredicted(m0, [0x78], 1);
    assert Unpredicted(m0) == f;
    AcknowledgeKeepsPredictions(m, 0);
    assert [0x78][..0] == [] && [0x78][0] == 0x78;
    assert m.frame == TypeByte(Typing(f, []), 0x78).frame;
    assert m.frame.cursorX == 1;
  }
}

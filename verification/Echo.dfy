/** Local echo over the mirrored frame (src/client/echo.rs). */
module LocalEcho {
  import opened Base
  import opened TerminalGrid
  import opened MirroredFrame

  /** A cell as it was before an entry first overwrote it. */
  datatype OldCell = OldCell(x: u16, y: u16, cell: Cell)

  datatype PredictionEntry = PredictionEntry(seqNum: nat, bytes: seq<byte>, epoch: nat, oldCursorX: u16,
                                             oldCursorY: u16, oldCells: seq<OldCell>)

  /** An engine together with the frame it predicts on. */
  datatype Mirror = Mirror(frame: Frame, queue: seq<PredictionEntry>, epoch: nat)

  // ----- apply_keystrokes -----

  /** A frame part way through an entry, with the cells overwritten so far. */
  datatype Typing = Typing(frame: Frame, saved: seq<OldCell>)

  predicate Saved(saved: seq<OldCell>, x: nat, y: nat) {
    exists o :: o in saved && o.x == x && o.y == y
  }

  function Overwrite(t: Typing, x: u16, y: u16, cell: Cell): (t': Typing)
    requires ValidFrame(t.frame) && InFrame(t.frame, x, y)
    ensures ValidFrame(t'.frame)
  {
    var i := At(t.frame, x, y);
    Typing(t.frame.(cells := t.frame.cells[i := cell]),
           if Saved(t.saved, x, y) then t.saved else t.saved + [OldCell(x, y, t.frame.cells[i])])
  }

  /** `(cursor_y + 1).min(rows.saturating_sub(1))` in u16. */
  function NextRow(f: Frame): (r: u16) {
    Min((f.cursorY + 1) % 0x1_0000, if f.rows == 0 then 0 else f.rows - 1)
  }

  function Glyph(b: byte): (r: Cell)
    requires 0x20 <= b < 0x7f
  {
    Cell([b as int as char], None, None, 0)
  }

  function TypeByte(t: Typing, b: byte): (t': Typing)
    requires ValidFrame(t.frame)
    ensures ValidFrame(t'.frame)
  {
    var f := t.frame;
    if b == 0x0d then t.(frame := f.(cursorX := 0))
    else if b == 0x0a then t.(frame := f.(cursorX := 0, cursorY := NextRow(f)))
    else if b == 0x08 || b == 0x7f then
      if f.cursorX == 0 then t
      else
        var t1 := t.(frame := f.(cursorX := f.cursorX - 1));
        if InFrame(f, f.cursorX - 1, f.cursorY) then Overwrite(t1, f.cursorX - 1, f.cursorY, BLANK) else t1
    else if 0x20 <= b < 0x7f && InFrame(f, f.cursorX, f.cursorY) then
      var t1 := Overwrite(t, f.cursorX, f.cursorY, Glyph(b));
      if f.cursorX + 1 >= f.cols then t1.(frame := t1.frame.(cursorX := 0, cursorY := NextRow(f)))
      else t1.(frame := t1.frame.(cursorX := f.cursorX + 1))
    else t
  }

  function TypeBytes(t: Typing, bytes: seq<byte>): (t': Typing)
    requires ValidFrame(t.frame)
    ensures ValidFrame(t'.frame)
  {
    if bytes == [] then t else TypeByte(TypeBytes(t, bytes[..|bytes| - 1]), bytes[|bytes| - 1])
  }

  /** The frame with these bytes echoed on it. */
  function Echoed(f: Frame, bytes: seq<byte>): (f': Frame)
    requires ValidFrame(f)
    ensures ValidFrame(f')
  {
    TypeBytes(Typing(f, []), bytes).frame
  }

  function EntryFor(f: Frame, bytes: seq<byte>, seqNum: nat, epoch: nat): (r: PredictionEntry)
    requires ValidFrame(f)
  {
    PredictionEntry(seqNum, bytes, epoch, f.cursorX, f.cursorY, TypeBytes(Typing(f, []), bytes).saved)
  }

  function Predict(m: Mirror, bytes: seq<byte>, seqNum: nat): (m': Mirror)
    requires ValidFrame(m.frame)
    ensures ValidFrame(m'.frame)
  {
    Mirror(Echoed(m.frame, bytes), m.queue + [EntryFor(m.frame, bytes, seqNum, m.epoch)], m.epoch)
  }

  // ----- reconcile_frame -----

  function PruneFront(queue: seq<PredictionEntry>, ack: nat, epoch: nat): (r: seq<PredictionEntry>) {
    if queue != [] && (queue[0].seqNum <= ack || queue[0].epoch < epoch) then PruneFront(queue[1..], ack, epoch)
    else queue
  }

  /** The entries' bytes predicted again, in order, each with fresh undo data. */
  function Replay(m: Mirror, entries: seq<PredictionEntry>): (m': Mirror)
    requires ValidFrame(m.frame)
    ensures ValidFrame(m'.frame) && m'.epoch == m.epoch
  {
    if entries == [] then m
    else
      var e := entries[|entries| - 1];
      Predict(Replay(m, entries[..|entries| - 1]), e.bytes, e.seqNum)
  }

  function Reconcile(m: Mirror, ack: nat): (m': Mirror)
    requires ValidFrame(m.frame)
    ensures ValidFrame(m'.frame) && m'.epoch == m.epoch
  {
    Replay(m.(queue := []), PruneFront(m.queue, ack, m.epoch))
  }

  // ----- abort -----

  function RestoreCell(f: Frame, o: OldCell): (f': Frame)
    requires ValidFrame(f)
    ensures ValidFrame(f') && f' == f.(cells := f'.cells)
  {
    if InFrame(f, o.x, o.y) then f.(cells := f.cells[At(f, o.x, o.y) := o.cell]) else f
  }

  /** Last saved, first restored. */
  function RestoreCells(f: Frame, saved: seq<OldCell>): (f': Frame)
    requires ValidFrame(f)
    ensures ValidFrame(f') && f' == f.(cells := f'.cells)
    decreases |saved|
  {
    if saved == [] then f else RestoreCells(RestoreCell(f, saved[|saved| - 1]), saved[..|saved| - 1])
  }

  function UndoEntry(f: Frame, e: PredictionEntry): (f': Frame)
    requires ValidFrame(f)
    ensures ValidFrame(f')
  {
    RestoreCells(f.(cursorX := e.oldCursorX, cursorY := e.oldCursorY), e.oldCells)
  }

  /** Newest entry first. */
  function UndoAll(f: Frame, queue: seq<PredictionEntry>): (f': Frame)
    requires ValidFrame(f)
    ensures ValidFrame(f')
    decreases |queue|
  {
    if queue == [] then f else UndoAll(UndoEntry(f, queue[|queue| - 1]), queue[..|queue| - 1])
  }

  function Abort(m: Mirror): (m': Mirror)
    requires ValidFrame(m.frame)
    ensures ValidFrame(m'.frame)
  {
    Mirror(UndoAll(m.frame, m.queue), [], m.epoch + 1)
  }

  class LocalEchoEngine {
    var unconfirmed: seq<PredictionEntry>
    var epoch: nat

    constructor ()
      ensures unconfirmed == [] && epoch == 0
    {
      unconfirmed, epoch := [], 0;
    }

    function On(frame: TerminalFrame): (r: Mirror)
      reads this, frame
    {
      Mirror(frame.Value(), unconfirmed, epoch)
    }

    /** Saves the cell under (x, y) unless this entry already did, then overwrites it. */
    method SaveAndWrite(frame: TerminalFrame, x: u16, y: u16, cell: Cell, saved: seq<OldCell>)
        returns (saved': seq<OldCell>)
      requires ValidFrame(frame.Value()) && InFrame(frame.Value(), x, y)
      modifies frame`cells
      ensures Typing(frame.Value(), saved') == Overwrite(Typing(old(frame.Value()), saved), x, y, cell)
    {
      var idx := At(frame.Value(), x, y);
      saved' := saved;
      if !exists o :: o in saved && o.x == x && o.y == y {
        saved' := saved' + [OldCell(x, y, frame.cells[idx])];
      }
      frame.cells := frame.cells[idx := cell];
    }

    method EchoByte(frame: TerminalFrame, b: byte, saved: seq<OldCell>) returns (saved': seq<OldCell>)
      requires ValidFrame(frame.Value())
      modifies frame`cells, frame`cursorX, frame`cursorY
      ensures Typing(frame.Value(), saved') == TypeByte(Typing(old(frame.Value()), saved), b)
    {
      saved' := saved;
      if b == 0x0d {
        frame.cursorX := 0;
      } else if b == 0x0a {
        frame.cursorX, frame.cursorY := 0, NextRow(frame.Value());
      } else if b == 0x08 || b == 0x7f {
        if frame.cursorX > 0 {
          frame.cursorX := frame.cursorX - 1;
          if frame.cursorX < frame.cols && frame.cursorY < frame.rows {
            saved' := SaveAndWrite(frame, frame.cursorX, frame.cursorY, BLANK, saved);
          }
        }
      } else if 0x20 <= b < 0x7f {
        if frame.cursorX < frame.cols && frame.cursorY < frame.rows {
          saved' := SaveAndWrite(frame, frame.cursorX, frame.cursorY, Glyph(b), saved);
          if frame.cursorX + 1 >= frame.cols {
            frame.cursorX, frame.cursorY := 0, NextRow(frame.Value());
          } else {
            frame.cursorX := frame.cursorX + 1;
          }
        }
      }
    }

    method ApplyKeystrokes(frame: TerminalFrame, bytes: seq<byte>, seqNum: nat)
      requires ValidFrame(frame.Value())
      modifies this`unconfirmed, frame`cells, frame`cursorX, frame`cursorY
      ensures On(frame) == Predict(old(On(frame)), bytes, seqNum)
    {
      var oldCursorX, oldCursorY := frame.cursorX, frame.cursorY;
      var saved: seq<OldCell> := [];
      ghost var start := Typing(frame.Value(), []);
      for i := 0 to |bytes|
        invariant unconfirmed == old(unconfirmed)
        invariant Typing(frame.Value(), saved) == TypeBytes(start, bytes[..i])
      {
        assert bytes[..i + 1][..i] == bytes[..i];
        saved := EchoByte(frame, bytes[i], saved);
      }
      assert bytes[..|bytes|] == bytes;
      unconfirmed := unconfirmed + [PredictionEntry(seqNum, bytes, epoch, oldCursorX, oldCursorY, saved)];
    }

    /** Drops the acknowledged and stale entries at the front. */
    method DropFront(ack: nat)
      modifies this`unconfirmed
      ensures unconfirmed == PruneFront(old(unconfirmed), ack, epoch)
    {
      while unconfirmed != [] && (unconfirmed[0].seqNum <= ack || unconfirmed[0].epoch < epoch)
        invariant PruneFront(unconfirmed, ack, epoch) == PruneFront(old(unconfirmed), ack, epoch)
        decreases |unconfirmed|
      {
        unconfirmed := unconfirmed[1..];
      }
    }

    /** Drops what is acknowledged, then echoes the rest again. */
    method ReconcileFrame(frame: TerminalFrame, ack: nat)
      requires ValidFrame(frame.Value())
      modifies this`unconfirmed, frame`cells, frame`cursorX, frame`cursorY
      ensures On(frame) == Reconcile(old(On(frame)), ack)
    {
      hide PruneFront, Predict;
      DropFront(ack);
      var surviving := unconfirmed;
      unconfirmed := [];
      ghost var start := On(frame);
      for i := 0 to |surviving|
        invariant ValidFrame(frame.Value()) && epoch == old(epoch)
        invariant On(frame) == Replay(start, surviving[..i])
      {
        assert surviving[..i + 1][..i] == surviving[..i];
        ApplyKeystrokes(frame, surviving[i].bytes, surviving[i].seqNum);
      }
      assert surviving[..|surviving|] == surviving;
    }

    /** Restores the cursor and, last saved first, the cells of one entry. */
    method UndoOne(frame: TerminalFrame, e: PredictionEntry)
      requires ValidFrame(frame.Value())
      modifies frame`cells, frame`cursorX, frame`cursorY
      ensures frame.Value() == UndoEntry(old(frame.Value()), e)
    {
      frame.cursorX, frame.cursorY := e.oldCursorX, e.oldCursorY;
      ghost var start := frame.Value();
      var j := |e.oldCells|;
      assert e.oldCells[..j] == e.oldCells;
      while j > 0
        invariant 0 <= j <= |e.oldCells| && ValidFrame(frame.Value())
        invariant RestoreCells(frame.Value(), e.oldCells[..j]) == RestoreCells(start, e.oldCells)
      {
        var o := e.oldCells[j - 1];
        assert e.oldCells[..j][..j - 1] == e.oldCells[..j - 1];
        if o.x < frame.cols && o.y < frame.rows {
          frame.cells := frame.cells[At(frame.Value(), o.x, o.y) := o.cell];
        }
        j := j - 1;
      }
    }

    /** Rolls the predictions back, newest first. */
    method AbortPredictions(frame: TerminalFrame)
      requires ValidFrame(frame.Value())
      modifies this, frame`cells, frame`cursorX, frame`cursorY
      ensures On(frame) == Abort(old(On(frame)))
    {
      var i := |unconfirmed|;
      assert unconfirmed[..i] == unconfirmed;
      while i > 0
        modifies frame`cells, frame`cursorX, frame`cursorY
        invariant 0 <= i <= |unconfirmed| && ValidFrame(frame.Value())
        invariant UndoAll(frame.Value(), unconfirmed[..i]) == UndoAll(old(frame.Value()), old(unconfirmed))
      {
        assert unconfirmed[..i][..i - 1] == unconfirmed[..i - 1];
        UndoOne(frame, unconfirmed[i - 1]);
        i := i - 1;
      }
      unconfirmed := [];
      epoch := epoch + 1;
    }
  }

  // ----- undo is exact -----

  /** Overwriting a saved cell makes no difference to what restoring gives. */
  lemma {:induction false} RestoreIgnoresSaved(f: Frame, saved: seq<OldCell>, x: u16, y: u16, cell: Cell)
    requires ValidFrame(f) && InFrame(f, x, y) && Saved(saved, x, y)
    ensures RestoreCells(f.(cells := f.cells[At(f, x, y) := cell]), saved) == RestoreCells(f, saved)
    decreases |saved|
  {
    var o := saved[|saved| - 1];
    var g := f.(cells := f.cells[At(f, x, y) := cell]);
    var before := saved[..|saved| - 1];
    assert saved == before + [o];
    if InFrame(f, o.x, o.y) && At(f, o.x, o.y) == At(f, x, y) {
      assert RestoreCell(g, o).cells == RestoreCell(f, o).cells;
    } else {
      assert Saved(before, x, y);
      var f' := RestoreCell(f, o);
      assert RestoreCell(g, o).cells == f'.cells[At(f', x, y) := cell];
      RestoreIgnoresSaved(f', before, x, y, cell);
    }
  }

  /** One more overwrite, saved or not, restores to the same frame. */
  lemma OverwriteRestores(t: Typing, x: u16, y: u16, cell: Cell)
    requires ValidFrame(t.frame) && InFrame(t.frame, x, y)
    ensures RestoreCells(Overwrite(t, x, y, cell).frame, Overwrite(t, x, y, cell).saved) 
            == RestoreCells(t.frame, t.saved)
  {
    var t' := Overwrite(t, x, y, cell);
    if Saved(t.saved, x, y) {
      RestoreIgnoresSaved(t.frame, t.saved, x, y, cell);
    } else {
      assert t'.saved[..|t'.saved| - 1] == t.saved;
      assert RestoreCell(t'.frame, t'.saved[|t'.saved| - 1]).cells == t.frame.cells;
    }
  }

  /** The cursor plays no part in restoring cells. */
  lemma {:induction false} RestoreKeepsCursor(f: Frame, saved: seq<OldCell>, x: u16, y: u16)
    requires ValidFrame(f)
    ensures RestoreCells(f.(cursorX := x, cursorY := y), saved) == RestoreCells(f, saved).(cursorX := x, cursorY := y)
    decreases |saved|
  {
    if saved != [] {
      var o := saved[|saved| - 1];
      assert RestoreCell(f.(cursorX := x, cursorY := y), o) == RestoreCell(f, o).(cursorX := x, cursorY := y);
      RestoreKeepsCursor(RestoreCell(f, o), saved[..|saved| - 1], x, y);
    }
  }

  /** The original frame, the cursor put at (x, y). */
  function Restored(t: Typing, x: u16, y: u16): (r: Frame)
    requires ValidFrame(t.frame)
  {
    RestoreCells(t.frame, t.saved).(cursorX := x, cursorY := y)
  }

  /** An overwrite, the cursor moved before and after it, restores to the same frame. */
  lemma OverwriteAnywhere(t: Typing, cx: u16, cy: u16, at: u16, row: u16, cell: Cell, x: u16, y: u16, toX: u16,
                          toY: u16)
    requires ValidFrame(t.frame) && InFrame(t.frame, at, row)
    ensures var moved := t.(frame := t.frame.(cursorX := cx, cursorY := cy));
            var o := Overwrite(moved, at, row, cell);
            Restored(o.(frame := o.frame.(cursorX := toX, cursorY := toY)), x, y) == Restored(t, x, y)
  {
    hide Overwrite, RestoreCells;
    var moved := t.(frame := t.frame.(cursorX := cx, cursorY := cy));
    var o := Overwrite(moved, at, row, cell);
    RestoreKeepsCursor(t.frame, t.saved, cx, cy);
    OverwriteRestores(moved, at, row, cell);
    RestoreKeepsCursor(o.frame, o.saved, toX, toY);
  }

  lemma TypeByteRestores(t: Typing, b: byte, x: u16, y: u16)
    requires ValidFrame(t.frame)
    ensures Restored(TypeByte(t, b), x, y) == Restored(t, x, y)
  {
    hide Overwrite, Restored, RestoreCells;
    var f, t' := t.frame, TypeByte(t, b);
    if (b == 0x08 || b == 0x7f) && f.cursorX > 0 && InFrame(f, f.cursorX - 1, f.cursorY) {
      var t1 := Overwrite(t.(frame := f.(cursorX := f.cursorX - 1)), f.cursorX - 1, f.cursorY, BLANK);
      OverwriteAnywhere(t, f.cursorX - 1, f.cursorY, f.cursorX - 1, f.cursorY, BLANK, x, y, t1.frame.cursorX,
                        t1.frame.cursorY);
      assert t1.(frame := t1.frame.(cursorX := t1.frame.cursorX, cursorY := t1.frame.cursorY)) == t1;
    } else if 0x20 <= b < 0x7f && InFrame(f, f.cursorX, f.cursorY) {
      var t1 := Overwrite(t, f.cursorX, f.cursorY, Glyph(b));
      OverwriteAnywhere(t, f.cursorX, f.cursorY, f.cursorX, f.cursorY, Glyph(b), x, y, t'.frame.cursorX,
                        t'.frame.cursorY);
      OverwriteMovesNothing(t, f.cursorX, f.cursorY, Glyph(b));
      assert t.(frame := f.(cursorX := f.cursorX, cursorY := f.cursorY)) == t;
    } else {
      CursorOnly(t, x, y, t'.frame.cursorX, t'.frame.cursorY);
    }
  }

  lemma OverwriteMovesNothing(t: Typing, x: u16, y: u16, cell: Cell)
    requires ValidFrame(t.frame) && InFrame(t.frame, x, y)
    ensures var f := Overwrite(t, x, y, cell).frame; f == t.frame.(cells := f.cells)
  {
  }

  lemma CursorOnly(t: Typing, x: u16, y: u16, toX: u16, toY: u16)
    requires ValidFrame(t.frame)
    ensures Restored(t.(frame := t.frame.(cursorX := toX, cursorY := toY)), x, y) == Restored(t, x, y)
  {
    RestoreKeepsCursor(t.frame, t.saved, toX, toY);
  }

  lemma {:induction false} TypeBytesRestores(t: Typing, bytes: seq<byte>, x: u16, y: u16)
    requires ValidFrame(t.frame)
    ensures Restored(TypeBytes(t, bytes), x, y) == Restored(t, x, y)
    decreases |bytes|
  {
    if bytes != [] {
      TypeBytesRestores(t, bytes[..|bytes| - 1], x, y);
      TypeByteRestores(TypeBytes(t, bytes[..|bytes| - 1]), bytes[|bytes| - 1], x, y);
    }
  }

  /** Undoing an entry gives back the frame it was predicted on. */
  lemma UndoIsExact(f: Frame, bytes: seq<byte>, seqNum: nat, epoch: nat)
    requires ValidFrame(f)
    ensures UndoEntry(Echoed(f, bytes), EntryFor(f, bytes, seqNum, epoch)) == f
  {
    var t := TypeBytes(Typing(f, []), bytes);
    TypeBytesRestores(Typing(f, []), bytes, f.cursorX, f.cursorY);
    RestoreKeepsCursor(t.frame, t.saved, f.cursorX, f.cursorY);
  }

  /** The frame without any prediction on it. */
  function Unpredicted(m: Mirror): (r: Frame)
    requires ValidFrame(m.frame)
  {
    UndoAll(m.frame, m.queue)
  }

  lemma PredictKeepsUnpredicted(m: Mirror, bytes: seq<byte>, seqNum: nat)
    requires ValidFrame(m.frame)
    ensures Unpredicted(Predict(m, bytes, seqNum)) == Unpredicted(m)
  {
    var m' := Predict(m, bytes, seqNum);
    UndoIsExact(m.frame, bytes, seqNum, m.epoch);
    assert m'.queue[..|m'.queue| - 1] == m.queue;
  }

  lemma {:induction false} ReplayKeepsUnpredicted(m: Mirror, entries: seq<PredictionEntry>)
    requires ValidFrame(m.frame)
    ensures Unpredicted(Replay(m, entries)) == Unpredicted(m)
    decreases |entries|
  {
    if entries != [] {
      var before, e := entries[..|entries| - 1], entries[|entries| - 1];
      ReplayKeepsUnpredicted(m, before);
      PredictKeepsUnpredicted(Replay(m, before), e.bytes, e.seqNum);
    }
  }

  // ----- reconcile as a filter -----

  /** All entries carry the current epoch, and their sequence numbers increase up to `top`. */
  predicate QueueInv(queue: seq<PredictionEntry>, epoch: nat, top: nat) {
    && (forall e | e in queue :: e.epoch == epoch && e.seqNum <= top)
    && (forall i, j | 0 <= i < j < |queue| :: queue[i].seqNum < queue[j].seqNum)
  }

  function Survivors(queue: seq<PredictionEntry>, ack: nat): (r: seq<PredictionEntry>) {
    if queue == [] then []
    else (if queue[0].seqNum > ack then [queue[0]] else []) + Survivors(queue[1..], ack)
  }

  lemma {:induction false} AllSurvive(queue: seq<PredictionEntry>, ack: nat)
    requires forall e | e in queue :: e.seqNum > ack
    ensures Survivors(queue, ack) == queue
    decreases |queue|
  {
    if queue != [] {
      AllSurvive(queue[1..], ack);
    }
  }

  /** Popping from the front keeps exactly the entries above the ack. */
  lemma {:induction false} PruneIsFilter(queue: seq<PredictionEntry>, epoch: nat, top: nat, ack: nat)
    requires QueueInv(queue, epoch, top)
    ensures PruneFront(queue, ack, epoch) == Survivors(queue, ack)
    decreases |queue|
  {
    if queue != [] {
      if queue[0].seqNum <= ack {
        PruneIsFilter(queue[1..], epoch, top, ack);
      } else {
        forall e | e in queue ensures e.seqNum > ack {
          var i :| 0 <= i < |queue| && queue[i] == e;
        }
        AllSurvive(queue, ack);
      }
    }
  }

  /** After an abort nothing predicted before it survives, whatever is acknowledged. */
  lemma {:induction false} AbortEndsTheEpoch(m: Mirror, stale: seq<PredictionEntry>, ack: nat)
    requires ValidFrame(m.frame) && forall e | e in stale :: e.epoch <= m.epoch
    ensures Reconcile(Abort(m).(queue := stale), ack) == Abort(m)
    decreases |stale|
  {
    if stale != [] {
      AbortEndsTheEpoch(m, stale[1..], ack);
    }
  }

  function Typed(entries: seq<PredictionEntry>): (r: seq<byte>) {
    if entries == [] then [] else Typed(entries[..|entries| - 1]) + entries[|entries| - 1].bytes
  }

  lemma {:induction false} TypeBytesAppend(t: Typing, a: seq<byte>, b: seq<byte>)
    requires ValidFrame(t.frame)
    ensures TypeBytes(t, a + b) == TypeBytes(TypeBytes(t, a), b)
    decreases |b|
  {
    if b == [] {
      assert a + b == a;
    } else {
      TypeBytesAppend(t, a, b[..|b| - 1]);
      assert (a + b)[..|a + b| - 1] == a + b[..|b| - 1];
    }
  }

  lemma ByteIgnoresSaved(f: Frame, a: seq<OldCell>, b: seq<OldCell>, key: byte)
    requires ValidFrame(f)
    ensures TypeByte(Typing(f, a), key).frame == TypeByte(Typing(f, b), key).frame
  {
    hide Saved;
  }

  /** What is saved does not influence what is echoed. */
  lemma {:induction false} EchoIgnoresSaved(f: Frame, saved: seq<OldCell>, bytes: seq<byte>)
    requires ValidFrame(f)
    ensures TypeBytes(Typing(f, saved), bytes).frame == Echoed(f, bytes)
    decreases |bytes|
  {
    if bytes != [] {
      hide TypeByte;
      var before := bytes[..|bytes| - 1];
      EchoIgnoresSaved(f, saved, before);
      ByteIgnoresSaved(Echoed(f, before), TypeBytes(Typing(f, saved), before).saved,
                       TypeBytes(Typing(f, []), before).saved,
                       bytes[|bytes| - 1]);
    }
  }

  /** Bytes echoed in two parts. */
  lemma EchoedInTurn(f: Frame, a: seq<byte>, b: seq<byte>)
    requires ValidFrame(f)
    ensures Echoed(f, a + b) == Echoed(Echoed(f, a), b)
  {
    var t := TypeBytes(Typing(f, []), a);
    TypeBytesAppend(Typing(f, []), a, b);
    EchoIgnoresSaved(t.frame, t.saved, b);
  }

  /** Replaying entries one by one echoes their concatenated bytes, and queues the same bytes and numbers. */
  lemma {:induction false} ReplayEchoes(m: Mirror, entries: seq<PredictionEntry>)
    requires ValidFrame(m.frame) && m.queue == []
    ensures var m' := Replay(m, entries);
            && m'.frame == Echoed(m.frame, Typed(entries)) && |m'.queue| == |entries|
            && forall i | 0 <= i < |entries| ::
                 m'.queue[i].seqNum == entries[i].seqNum && m'.queue[i].bytes == entries[i].bytes
                     && m'.queue[i].epoch == m.epoch
    decreases |entries|
  {
    if entries != [] {
      var before, e := entries[..|entries| - 1], entries[|entries| - 1];
      ReplayEchoes(m, before);
      var t := TypeBytes(Typing(m.frame, []), Typed(before));
      TypeBytesAppend(Typing(m.frame, []), Typed(before), e.bytes);
      EchoIgnoresSaved(t.frame, t.saved, e.bytes);
    }
  }

  /** `reconcile_frame` echoes, on the given frame, the bytes of the entries above the ack. */
  lemma ReconcileRefinesFilter(m: Mirror, top: nat, ack: nat)
    requires ValidFrame(m.frame) && QueueInv(m.queue, m.epoch, top)
    ensures Reconcile(m, ack).frame == Echoed(m.frame, Typed(Survivors(m.queue, ack)))
    ensures QueueInv(Reconcile(m, ack).queue, m.epoch, top)
  {
    PruneIsFilter(m.queue, m.epoch, top, ack);
    SurvivorsInv(m.queue, m.epoch, top, ack);
    ReplayEchoes(m.(queue := []), Survivors(m.queue, ack));
  }

  lemma {:induction false} SurvivorsAre(queue: seq<PredictionEntry>, ack: nat)
    ensures forall e :: e in Survivors(queue, ack) <==> e in queue && e.seqNum > ack
    decreases |queue|
  {
    if queue != [] {
      SurvivorsAre(queue[1..], ack);
      assert queue == [queue[0]] + queue[1..];
    }
  }

  lemma PutInFront(e: PredictionEntry, rest: seq<PredictionEntry>, epoch: nat, top: nat)
    requires QueueInv(rest, epoch, top) && e.epoch == epoch && e.seqNum <= top
    requires forall x | x in rest :: e.seqNum < x.seqNum
    ensures QueueInv([e] + rest, epoch, top)
  {
  }

  lemma {:induction false} SurvivorsInv(queue: seq<PredictionEntry>, epoch: nat, top: nat, ack: nat)
    requires QueueInv(queue, epoch, top)
    ensures QueueInv(Survivors(queue, ack), epoch, top)
    decreases |queue|
  {
    if queue != [] {
      var rest := Survivors(queue[1..], ack);
      SurvivorsInv(queue[1..], epoch, top, ack);
      SurvivorsAre(queue[1..], ack);
      PutInFrontOf(queue, rest, epoch, top);
      assert [] + rest == rest;
    }
  }

  lemma PutInFrontOf(queue: seq<PredictionEntry>, rest: seq<PredictionEntry>, epoch: nat, top: nat)
    requires queue != [] && QueueInv(queue, epoch, top) && QueueInv(rest, epoch, top)
    requires forall x | x in rest :: x in queue[1..]
    ensures QueueInv([queue[0]] + rest, epoch, top)
  {
    forall x | x in rest ensures queue[0].seqNum < x.seqNum {
      var i :| 0 <= i < |queue[1..]| && queue[1..][i] == x;
      assert queue[i + 1] == x;
    }
    PutInFront(queue[0], rest, epoch, top);
  }

  // ----- the cursor stays inside -----

  predicate CursorInside(f: Frame) {
    f.cols > 0 && f.rows > 0 ==> f.cursorX < f.cols && f.cursorY < f.rows
  }

  lemma ByteStaysInside(t: Typing, b: byte)
    requires ValidFrame(t.frame) && CursorInside(t.frame)
    ensures CursorInside(TypeByte(t, b).frame) && SameShape(TypeByte(t, b).frame, t.frame)
  {
    hide Saved;
  }

  lemma {:induction false} CursorStaysInside(t: Typing, bytes: seq<byte>)
    requires ValidFrame(t.frame) && CursorInside(t.frame)
    ensures CursorInside(TypeBytes(t, bytes).frame)
    ensures SameShape(TypeBytes(t, bytes).frame, t.frame)
    decreases |bytes|
  {
    if bytes != [] {
      hide TypeByte, CursorInside;
      CursorStaysInside(t, bytes[..|bytes| - 1]);
      ByteStaysInside(TypeBytes(t, bytes[..|bytes| - 1]), bytes[|bytes| - 1]);
    }
  }

  predicate SameShape(f: Frame, g: Frame) {
    f.cols == g.cols && f.rows == g.rows
  }

  /** Reconciling a frame whose cursor is inside leaves the cursor inside, whatever is pending. */
  lemma ReconcileKeepsCursorInside(m: Mirror, ack: nat)
    requires ValidFrame(m.frame) && CursorInside(m.frame)
    ensures CursorInside(Reconcile(m, ack).frame)
  {
    hide CursorInside, TypeBytes, PruneFront;
    var entries := PruneFront(m.queue, ack, m.epoch);
    ReplayEchoes(m.(queue := []), entries);
    CursorStaysInside(Typing(m.frame, []), Typed(entries));
  }

  lemma {:induction false} TypingKeepsShape(t: Typing, bytes: seq<byte>)
    requires ValidFrame(t.frame)
    ensures SameShape(TypeBytes(t, bytes).frame, t.frame)
    decreases |bytes|
  {
    if bytes != [] {
      TypingKeepsShape(t, bytes[..|bytes| - 1]);
    }
  }

  lemma ReconcileKeepsShape(m: Mirror, ack: nat)
    requires ValidFrame(m.frame)
    ensures SameShape(Reconcile(m, ack).frame, m.frame)
  {
    hide TypeBytes, PruneFront;
    var entries := PruneFront(m.queue, ack, m.epoch);
    ReplayEchoes(m.(queue := []), entries);
    TypingKeepsShape(Typing(m.frame, []), Typed(entries));
  }
}

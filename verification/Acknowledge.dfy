/**
 * What an acknowledgement between frames does to the mirror, and exactly when it does nothing
 * (src/client/terminal.rs).
 */
module Acknowledging {
  import opened Base
  import opened TerminalGrid
  import opened MirroredFrame
  import opened LocalEcho

  // ----- bytes that echo -----

  /** The bytes local echo reacts to: the printable ones, return, line feed, backspace and delete. */
  predicate Echoing(b: byte) {
    0x20 <= b <= 0x7f || b == 0x0d || b == 0x0a || b == 0x08
  }

  predicate Silent(bytes: seq<byte>) {
    forall b | b in bytes :: !Echoing(b)
  }

  lemma {:induction false} SilentBytesType(t: Typing, bytes: seq<byte>)
    requires ValidFrame(t.frame) && Silent(bytes)
    ensures TypeBytes(t, bytes) == t
    decreases |bytes|
  {
    if bytes != [] {
      SilentBytesType(t, bytes[..|bytes| - 1]);
      assert bytes[|bytes| - 1] in bytes;
    }
  }

  /** A cell that typing never produces. */
  const MARK := Cell("mark", None, None, 0)

  /** A frame on which every echoing byte leaves a trace. */
  const MARKED := Frame(2, 1, [MARK, MARK], [false], 1, 0, false, false, 0, false)

  predicate Touched(f: Frame) {
    && ValidFrame(f) && f.cols == 2 && f.rows == 1 && f.cursorX < 2 && f.cursorY == 0
    && (f.cells[0] != MARK || f.cells[1] != MARK || f.cursorX == 0)
  }

  lemma TouchedStays(t: Typing, b: byte)
    requires Touched(t.frame)
    ensures Touched(TypeByte(t, b).frame)
  {
  }

  lemma FirstTouch(t: Typing, b: byte)
    requires t.frame == MARKED && Echoing(b)
    ensures Touched(TypeByte(t, b).frame)
  {
  }

  lemma {:induction false} EchoTouches(t: Typing, bytes: seq<byte>)
    requires t.frame == MARKED && ValidFrame(t.frame) && !Silent(bytes)
    ensures Touched(TypeBytes(t, bytes).frame)
    decreases |bytes|
  {
    var before, b := bytes[..|bytes| - 1], bytes[|bytes| - 1];
    assert bytes == before + [b];
    hide TypeByte, Touched;
    if Silent(before) {
      SilentBytesType(t, before);
      FirstTouch(t, b);
    } else {
      EchoTouches(t, before);
      TouchedStays(TypeBytes(t, before), b);
    }
  }

  // ----- one acknowledgement -----

  /** The bytes an acknowledgement types again. */
  function TypedAgain(queue: seq<PredictionEntry>, epoch: nat, ack: nat): (bytes: seq<byte>) {
    Typed(PruneFront(queue, ack, epoch))
  }

  lemma AcknowledgeTypesAgain(m: Mirror, ack: nat)
    requires ValidFrame(m.frame)
    ensures Reconcile(m, ack).frame == Echoed(m.frame, TypedAgain(m.queue, m.epoch, ack))
  {
    ReplayEchoes(m.(queue := []), PruneFront(m.queue, ack, m.epoch));
  }

  /** Whatever is on the screen, the acknowledgement leaves it there. */
  ghost predicate LeavesEveryScreen(queue: seq<PredictionEntry>, epoch: nat, ack: nat) {
    forall f: Frame | ValidFrame(f) :: Reconcile(Mirror(f, queue, epoch), ack).frame == f
  }

  /** An acknowledgement leaves every screen as it was exactly when what stays pending echoes nothing. */
  lemma AcknowledgeLeavesScreenIff(queue: seq<PredictionEntry>, epoch: nat, ack: nat)
    ensures LeavesEveryScreen(queue, epoch, ack) <==> Silent(TypedAgain(queue, epoch, ack))
  {
    hide Silent, TypedAgain, TypeByte;
    var bytes := TypedAgain(queue, epoch, ack);
    if Silent(bytes) {
      forall f: Frame | ValidFrame(f) ensures Reconcile(Mirror(f, queue, epoch), ack).frame == f {
        AcknowledgeTypesAgain(Mirror(f, queue, epoch), ack);
        SilentBytesType(Typing(f, []), bytes);
      }
    } else {
      ScreenTouched(queue, epoch, ack);
    }
  }

  lemma ScreenTouched(queue: seq<PredictionEntry>, epoch: nat, ack: nat)
    requires !Silent(TypedAgain(queue, epoch, ack))
    ensures ValidFrame(MARKED) && Reconcile(Mirror(MARKED, queue, epoch), ack).frame != MARKED
  {
    hide TypedAgain, TypeBytes, Reconcile;
    AcknowledgeTypesAgain(Mirror(MARKED, queue, epoch), ack);
    EchoTouches(Typing(MARKED, []), TypedAgain(queue, epoch, ack));
  }

  // ----- the same acknowledgement twice -----

  predicate SameKeys(a: seq<PredictionEntry>, b: seq<PredictionEntry>) {
    |a| == |b| && forall i | 0 <= i < |a| :: a[i].seqNum == b[i].seqNum && a[i].bytes == b[i].bytes
  }

  /** A replay looks at the numbers and bytes of the entries only. */
  lemma {:induction false} ReplaySame(m: Mirror, a: seq<PredictionEntry>, b: seq<PredictionEntry>)
    requires ValidFrame(m.frame) && SameKeys(a, b)
    ensures Replay(m, a) == Replay(m, b)
    decreases |a|
  {
    if a != [] {
      hide Predict;
      ReplaySame(m, a[..|a| - 1], b[..|b| - 1]);
    }
  }

  lemma {:induction false} PrunedFront(queue: seq<PredictionEntry>, ack: nat, epoch: nat)
    ensures var p := PruneFront(queue, ack, epoch); p != [] ==> p[0].seqNum > ack && p[0].epoch >= epoch
    decreases |queue|
  {
    if queue != [] && (queue[0].seqNum <= ack || queue[0].epoch < epoch) {
      PrunedFront(queue[1..], ack, epoch);
    }
  }

  /** What stays pending stays pending under the same acknowledgement, with the same keys. */
  lemma PendingStays(m: Mirror, ack: nat)
    requires ValidFrame(m.frame)
    ensures var r := Reconcile(m, ack);
            && SameKeys(r.queue, PruneFront(m.queue, ack, m.epoch))
            && PruneFront(r.queue, ack, r.epoch) == r.queue
  {
    var pending := PruneFront(m.queue, ack, m.epoch);
    PrunedFront(m.queue, ack, m.epoch);
    ReplayEchoes(m.(queue := []), pending);
  }

  predicate Repeatable(m: Mirror, ack: nat)
    requires ValidFrame(m.frame)
  {
    Reconcile(Reconcile(m, ack), ack) == Reconcile(m, ack)
  }

  /** Repeating an acknowledgement changes nothing exactly when the first one left this screen as it was. */
  lemma RepeatableIff(m: Mirror, ack: nat)
    requires ValidFrame(m.frame)
    ensures Repeatable(m, ack) <==> Reconcile(m, ack).frame == m.frame
  {
    hide Replay, PruneFront, SameKeys;
    var r, pending := Reconcile(m, ack), PruneFront(m.queue, ack, m.epoch);
    PendingStays(m, ack);
    ReplayKeepsUnpredicted(m.(queue := []), pending);
    ReplayKeepsUnpredicted(r.(queue := []), r.queue);
    ReplaySame(r.(queue := []), r.queue, pending);
    assert Unpredicted(r) == m.frame;
    assert Unpredicted(Reconcile(r, ack)) == r.frame;
    if r.frame == m.frame {
      assert r.(queue := []) == m.(queue := []);
    }
  }

  ghost predicate AlwaysRepeatable(queue: seq<PredictionEntry>, epoch: nat, ack: nat) {
    forall f: Frame | ValidFrame(f) :: Repeatable(Mirror(f, queue, epoch), ack)
  }

  /** So an acknowledgement is idempotent, on every screen, exactly when what stays pending echoes nothing. */
  lemma AcknowledgeIdempotentIff(queue: seq<PredictionEntry>, epoch: nat, ack: nat)
    ensures AlwaysRepeatable(queue, epoch, ack) <==> Silent(TypedAgain(queue, epoch, ack))
  {
    hide Silent, TypedAgain, Reconcile, Repeatable;
    AcknowledgeLeavesScreenIff(queue, epoch, ack);
    forall f: Frame | ValidFrame(f)
      ensures Repeatable(Mirror(f, queue, epoch), ack) <==> Reconcile(Mirror(f, queue, epoch), ack).frame == f
    {
      RepeatableIff(Mirror(f, queue, epoch), ack);
    }
    if !Silent(TypedAgain(queue, epoch, ack)) {
      ScreenTouched(queue, epoch, ack);
      assert !Repeatable(Mirror(MARKED, queue, epoch), ack);
    }
  }

  // ----- the whole mirror -----

  lemma {:induction false} FirstUndoCursor(m: Mirror, entries: seq<PredictionEntry>)
    requires ValidFrame(m.frame) && m.queue == [] && entries != []
    ensures var q := Replay(m, entries).queue; q != [] && q[0].oldCursorX == m.frame.cursorX
    decreases |entries|
  {
    hide TypeBytes;
    var before := entries[..|entries| - 1];
    if before != [] {
      FirstUndoCursor(m, before);
    }
  }

  /** Undo data included, an acknowledgement leaves every mirror as it was exactly when nothing is pending. */
  ghost predicate LeavesEveryMirror(queue: seq<PredictionEntry>, epoch: nat, ack: nat) {
    forall f: Frame | ValidFrame(f) :: Reconcile(Mirror(f, queue, epoch), ack) == Mirror(f, queue, epoch)
  }

  lemma AcknowledgeLeavesMirrorIff(queue: seq<PredictionEntry>, epoch: nat, ack: nat)
    ensures LeavesEveryMirror(queue, epoch, ack) <==> queue == []
  {
    if queue != [] {
      var f := MARKED.(cursorX := if queue[0].oldCursorX == 0 then 1 else 0);
      var m, pending := Mirror(f, queue, epoch), PruneFront(queue, ack, epoch);
      assert Reconcile(m, ack) == Replay(Mirror(f, [], epoch), pending);
      if pending != [] {
        FirstUndoCursor(Mirror(f, [], epoch), pending);
      }
      assert Reconcile(m, ack).queue != queue;
    }
  }

  // ----- a key echoed twice -----

  lemma OneKey(f: Frame)
    requires ValidFrame(f) && f.cols == 2 && f.rows == 1 && f.cursorX < 2 && f.cursorY == 0
    ensures Echoed(f, [0x78]) == f.(cells := f.cells[f.cursorX := Glyph(0x78)],
                                     cursorX := if f.cursorX == 0 then 1 else 0)
  {
    var t: Typing := Typing(f, []);
    assert [0x78][..0] == [] && [0x78][0] == 0x78;
    assert TypeBytes(t, [0x78]) == TypeByte(t, 0x78);
  }

  lemma OneEntry(e: PredictionEntry)
    ensures Typed([e]) == e.bytes
  {
    assert [e][..0] == [];
    assert [] + e.bytes == e.bytes;
  }

  /** One "x" predicted on a blank 2x1 screen: an acknowledgement types it again, and again when repeated. */
  lemma AcknowledgedKeyIsTypedAgain() returns (m: Mirror)
    ensures ValidFrame(m.frame) && |m.queue| == 1 && m.queue[0].bytes == [0x78]
    ensures Reconcile(m, 0).frame.cells != m.frame.cells && !Repeatable(m, 0)
  {
    hide Echoed, Reconcile, TypeBytes, Repeatable;
    var f := Frame(2, 1, [BLANK, BLANK], [true], 0, 0, false, false, 0, false);
    m := Predict(Mirror(f, [], 0), [0x78], 1);
    OneKey(f);
    assert m.queue == [m.queue[0]] && PruneFront(m.queue, 0, 0) == m.queue;
    OneEntry(m.queue[0]);
    AcknowledgeTypesAgain(m, 0);
    OneKey(m.frame);
    assert Reconcile(m, 0).frame.cells[1] == Glyph(0x78) != m.frame.cells[1];
    RepeatableIff(m, 0);
  }
}

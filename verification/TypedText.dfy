/** What typed keys look like on the frame (src/client/echo.rs), key by key and for whole texts. */
module TypedText {
  import opened Base
  import opened TerminalGrid
  import opened MirroredFrame
  import opened LocalEcho

  /** Printable ASCII. */
  predicate Text(s: seq<byte>) {
    forall b | b in s :: 0x20 <= b < 0x7f
  }

  /** The cursor's cell, counted along the rows from the top left. */
  function Place(f: Frame): (r: nat) {
    f.cursorY * f.cols + f.cursorX
  }

  predicate CursorOn(f: Frame) {
    f.cursorX < f.cols && f.cursorY < f.rows
  }

  /** The same frame with the cursor at (x, y). */
  function CursorMoved(f: Frame, x: u16, y: u16): (r: Frame) {
    f.(cursorX := x, cursorY := y)
  }

  lemma OneByte(f: Frame, b: byte)
    requires ValidFrame(f)
    ensures Echoed(f, [b]) == TypeByte(Typing(f, []), b).frame
  {
    assert [b][..0] == [] && TypeBytes(Typing(f, []), []) == Typing(f, []);
    assert TypeBytes(Typing(f, []), [b]) == TypeByte(TypeBytes(Typing(f, []), [b][..0]), [b][0]);
  }

  // ----- key by key -----

  /** A printable key stands alone in the cursor's cell, in default style, and the cursor moves one column on. */
  lemma LetterIsShown(f: Frame, b: byte)
    requires ValidFrame(f) && CursorOn(f) && 0x20 <= b < 0x7f && f.cursorX + 1 < f.cols
    ensures Place(f) < |f.cells|
    ensures Echoed(f, [b]) == CursorMoved(f, f.cursorX + 1, f.cursorY).(
                                cells := f.cells[Place(f) := Cell([b as int as char], None, None, 0)])
  {
    OneByte(f, b);
    InBounds(f.cols, f.rows, f.cursorX, f.cursorY);
  }

  /** In the last column the cursor goes to the start of the next row, or of the last one again. */
  lemma LetterWraps(f: Frame, b: byte)
    requires ValidFrame(f) && CursorOn(f) && 0x20 <= b < 0x7f && f.cursorX + 1 == f.cols
    ensures Place(f) < |f.cells|
    ensures Echoed(f, [b]) == CursorMoved(f, 0, if f.cursorY + 1 < f.rows then f.cursorY + 1 else f.cursorY).(
                                cells := f.cells[Place(f) := Cell([b as int as char], None, None, 0)])
  {
    OneByte(f, b);
    InBounds(f.cols, f.rows, f.cursorX, f.cursorY);
  }

  /** Backspace and delete blank the cell to the left and move onto it; in column 0 they do nothing. */
  lemma BackspaceBlanks(f: Frame, b: byte)
    requires ValidFrame(f) && (b == 0x08 || b == 0x7f)
    ensures f.cursorX == 0 ==> Echoed(f, [b]) == f
    ensures 0 < f.cursorX <= f.cols && f.cursorY < f.rows ==>
              && 0 < Place(f) <= |f.cells|
              && Echoed(f, [b]) == CursorMoved(f, f.cursorX - 1, f.cursorY).(
                                     cells := f.cells[Place(f) - 1 := Cell(" ", None, None, 0)])
    ensures f.cursorX > 0 && !(f.cursorX <= f.cols && f.cursorY < f.rows) ==>
              Echoed(f, [b]) == CursorMoved(f, f.cursorX - 1, f.cursorY)
  {
    OneByte(f, b);
    if 0 < f.cursorX <= f.cols && f.cursorY < f.rows {
      InBounds(f.cols, f.rows, f.cursorX - 1, f.cursorY);
    }
  }

  /** Return goes to column 0; line feed goes to column 0 of the next row, or of the last one again. */
  lemma LineEndsMove(f: Frame)
    requires ValidFrame(f)
    ensures Echoed(f, [0x0d]) == CursorMoved(f, 0, f.cursorY)
    ensures f.cursorY < f.rows ==>
              Echoed(f, [0x0a]) == CursorMoved(f, 0, if f.cursorY + 1 < f.rows then f.cursorY + 1 else f.cursorY)
  {
    OneByte(f, 0x0d);
    OneByte(f, 0x0a);
  }

  /** Every other byte, and a printable one with the cursor off the frame, shows nothing. */
  lemma OthersShowNothing(f: Frame, b: byte)
    requires ValidFrame(f) && b != 0x08 && b != 0x0a && b != 0x0d && b != 0x7f
    requires (0x20 <= b < 0x7f) ==> !CursorOn(f)
    ensures Echoed(f, [b]) == f
  {
    OneByte(f, b);
  }

  // ----- whole texts -----

  /** The text stands in the cells from `from` on, each letter in its own, and every other cell is as it was. */
  predicate Written(before: seq<Cell>, after: seq<Cell>, from: nat, s: seq<byte>) {
    && |after| == |before| && from + |s| <= |before|
    && forall k | 0 <= k < |before| ::
         after[k] == if from <= k < from + |s| then Cell([s[k - from] as int as char], None, None, 0) else before[k]
  }

  lemma RowsRise(cols: nat, y: nat, y': nat)
    requires y <= y'
    ensures y * cols <= y' * cols
  {
    assert (y' - y) * cols == y' * cols - y * cols;
  }

  /** A row further down begins behind the whole of a row. */
  lemma RowBelow(cols: nat, y: nat, y': nat)
    requires y < y'
    ensures y * cols + cols <= y' * cols
  {
    RowsRise(cols, y + 1, y');
    assert (y + 1) * cols == y * cols + cols;
  }

  lemma RowAhead(cols: nat, rows: nat, y: nat)
    requires (y + 1) * cols < cols * rows
    ensures y + 1 < rows
  {
    if y + 1 >= rows {
      RowsRise(cols, rows, y + 1);
    }
  }

  lemma OneLetter(f: Frame, b: byte)
    requires ValidFrame(f) && CursorOn(f) && 0x20 <= b < 0x7f && Place(f) + 1 < f.cols * f.rows
    ensures var g := Echoed(f, [b]);
            && g == CursorMoved(f, g.cursorX, g.cursorY).(cells := g.cells) && CursorOn(g)
            && Place(g) == Place(f) + 1 && Written(f.cells, g.cells, Place(f), [b])
  {
    if f.cursorX + 1 < f.cols {
      LetterIsShown(f, b);
    } else {
      assert Place(f) + 1 == (f.cursorY + 1) * f.cols;
      RowAhead(f.cols, f.rows, f.cursorY);
      LetterWraps(f, b);
    }
  }

  lemma WrittenNext(a: seq<Cell>, b: seq<Cell>, c: seq<Cell>, from: nat, s: seq<byte>, last: byte)
    requires Written(a, b, from, s) && Written(b, c, from + |s|, [last])
    ensures Written(a, c, from, s + [last])
  {
  }

  /**
   * Printable text that ends before the frame does stands, letter by letter, in the cells from the cursor
   * on, row after row; no other cell changes, and the cursor is behind it.
   */
  lemma {:induction false} TextIsShown(f: Frame, s: seq<byte>)
    requires ValidFrame(f) && CursorOn(f) && Text(s) && Place(f) + |s| < f.cols * f.rows
    ensures var g := Echoed(f, s);
            && g == CursorMoved(f, g.cursorX, g.cursorY).(cells := g.cells) && CursorOn(g)
            && Place(g) == Place(f) + |s| && Written(f.cells, g.cells, Place(f), s)
    decreases |s|
  {
    hide Echoed, Written, Place;
    if s == [] {
      NothingTyped(f);
    } else {
      var before, last := s[..|s| - 1], s[|s| - 1];
      assert s == before + [last] && last in s;
      forall b | b in before ensures 0x20 <= b < 0x7f {
        assert b in s;
      }
      TextIsShown(f, before);
      EchoedInTurn(f, before, [last]);
      var g := Echoed(f, before);
      OneLetter(g, last);
      WrittenNext(f.cells, g.cells, Echoed(g, [last]).cells, Place(f), before, last);
    }
  }

  lemma NothingTyped(f: Frame)
    requires ValidFrame(f) && Place(f) <= |f.cells|
    ensures Echoed(f, []) == f && Written(f.cells, f.cells, Place(f), [])
  {
  }

  /** Within one row: the columns the text takes, and only they, show it. */
  lemma TextInARow(f: Frame, s: seq<byte>, x: nat, y: nat)
    requires ValidFrame(f) && CursorOn(f) && Text(s) && f.cursorX + |s| < f.cols && InFrame(f, x, y)
    ensures var g := Echoed(f, s);
            && ValidFrame(g) && g.cursorX == f.cursorX + |s| && g.cursorY == f.cursorY
            && ShownAt(g, x, y) == (if y == f.cursorY && f.cursorX <= x < f.cursorX + |s|
                                    then Some(Cell([s[x - f.cursorX] as int as char], None, None, 0))
                                    else ShownAt(f, x, y))
  {
    InBounds(f.cols, f.rows, f.cursorX + |s|, f.cursorY);
    TextIsShown(f, s);
    var g := Echoed(f, s);
    SamePlace(f.cols, g.cursorX, g.cursorY, f.cursorX + |s|, f.cursorY);
    InBounds(f.cols, f.rows, x, y);
    if y != f.cursorY {
      RowsApart(f.cols, x, y, f.cursorX, f.cursorY, |s|);
    }
  }

  /** A place along the rows names its column and row. */
  lemma SamePlace(cols: nat, x: nat, y: nat, x': nat, y': nat)
    requires x < cols && x' < cols && y * cols + x == y' * cols + x'
    ensures x == x' && y == y'
  {
    if y < y' {
      RowBelow(cols, y, y');
    } else if y' < y {
      RowBelow(cols, y', y);
    }
  }

  lemma RowsApart(cols: nat, x: nat, y: nat, x': nat, y': nat, n: nat)
    requires x < cols && x' + n < cols && y != y'
    ensures !(y' * cols + x' <= y * cols + x < y' * cols + x' + n)
  {
    if y < y' {
      RowBelow(cols, y, y');
    } else {
      RowBelow(cols, y', y);
    }
  }
}

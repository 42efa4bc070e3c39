/** The client's mirrored screen: grid contents plus repaint bookkeeping (src/client/terminal.rs). */
module MirroredFrame {
  import opened Base
  import opened TerminalGrid

  datatype Frame = Frame(cols: u16, rows: u16, cells: seq<Cell>, rowDirty: seq<bool>, cursorX: u16, cursorY: u16,
                         cursorVisible: bool, dirty: bool, lastSeq: nat, clearRequested: bool)

  predicate ValidFrame(f: Frame) {
    |f.cells| == f.cols * f.rows && |f.rowDirty| == f.rows
  }

  predicate InFrame(f: Frame, x: nat, y: nat) {
    x < f.cols && y < f.rows
  }

  function At(f: Frame, x: nat, y: nat): (i: nat)
    requires ValidFrame(f) && InFrame(f, x, y)
    ensures i < |f.cells|
  {
    InBounds(f.cols, f.rows, x, y);
    y * f.cols + x
  }

  // ----- update_from_grid_state -----

  /** A change of dimensions starts from blank cells, every row dirty and a physical clear. */
  function Resized(f: Frame, g: Grid): (r: Frame)
    requires ValidFrame(f)
    ensures ValidFrame(r) && r.cols == g.cols && r.rows == g.rows
  {
    if f.cols == g.cols && f.rows == g.rows then f
    else
      var b := BlankGrid(g.cols, g.rows);
      f.(cols := g.cols, rows := g.rows, cells := b.cells, rowDirty := seq(g.rows, _ => true), clearRequested := true)
  }

  predicate CellDiffers(f: Frame, g: Grid, x: nat, y: nat)
    requires ValidFrame(f) && InFrame(f, x, y)
  {
    At(f, x, y) < |g.cells| && f.cells[At(f, x, y)] != g.cells[At(f, x, y)]
  }

  predicate RowDiffers(f: Frame, g: Grid, y: nat, width: nat)
    requires ValidFrame(f) && y < f.rows && width <= f.cols
  {
    exists x: nat :: x < width && CellDiffers(f, g, x, y)
  }

  predicate CursorDiffers(f: Frame, g: Grid) {
    f.cursorX != g.cursorX || f.cursorY != g.cursorY || f.cursorVisible != g.cursorVisible
  }

  /** Cells below position `n` taken from the grid, as far as it reaches. */
  function CellsFrom(f: Frame, g: Grid, n: nat): (r: seq<Cell>) {
    seq(|f.cells|, i requires 0 <= i < |f.cells| => if i < n && i < |g.cells| then g.cells[i] else f.cells[i])
  }

  predicate AnyRowDiffers(f: Frame, g: Grid, n: nat)
    requires ValidFrame(f) && n <= f.rows
  {
    exists y: nat :: y < n && RowDiffers(f, g, y, f.cols)
  }

  /** The first `n` rows taken from the grid, and those of them that differ marked dirty. */
  function CopiedRows(f: Frame, g: Grid, n: nat): (f': Frame)
    requires ValidFrame(f) && n <= f.rows
    ensures ValidFrame(f')
  {
    f.(cells := CellsFrom(f, g, n * f.cols),
       rowDirty := seq(f.rows, y requires 0 <= y < f.rows => f.rowDirty[y] || (y < n && RowDiffers(f, g, y, f.cols))),
       dirty := f.dirty || AnyRowDiffers(f, g, n))
  }

  function UpdateFrom(f: Frame, g: Grid): (f': Frame)
    requires ValidFrame(f)
    ensures ValidFrame(f')
  {
    var r := Resized(f, g);
    var c := CopiedRows(r, g, r.rows);
    c.(cursorX := g.cursorX, cursorY := g.cursorY, cursorVisible := g.cursorVisible,
       dirty := c.dirty || CursorDiffers(c, g))
  }

  lemma CopyNoRows(f: Frame, g: Grid)
    requires ValidFrame(f)
    ensures CopiedRows(f, g, 0) == f && CellsFrom(f, g, 0) == f.cells
  {
    assert CellsFrom(f, g, 0) == f.cells;
    assert CopiedRows(f, g, 0).rowDirty == f.rowDirty;
  }

  lemma CopyNextRow(f: Frame, g: Grid, n: nat)
    requires ValidFrame(f) && n < f.rows
    ensures n * f.cols + f.cols <= |f.cells|
    ensures var c := CopiedRows(f, g, n).(cells := CellsFrom(f, g, n * f.cols + f.cols));
            CopiedRows(f, g, n + 1) ==
            if RowDiffers(f, g, n, f.cols) then c.(rowDirty := c.rowDirty[n := true], dirty := true) else c
  {
    RowBounds(f.cols, f.rows, n);
    var c := CopiedRows(f, g, n).(cells := CellsFrom(f, g, n * f.cols + f.cols));
    var c' := if RowDiffers(f, g, n, f.cols) then c.(rowDirty := c.rowDirty[n := true], dirty := true) else c;
    assert CopiedRows(f, g, n + 1).rowDirty == c'.rowDirty;
    assert AnyRowDiffers(f, g, n + 1) <==> AnyRowDiffers(f, g, n) || RowDiffers(f, g, n, f.cols);
  }

  /** The frame displays the grid: same size, cells, cursor and visibility. */
  predicate Shows(f: Frame, g: Grid) {
    && f.cols == g.cols && f.rows == g.rows && f.cells == g.cells
    && f.cursorX == g.cursorX && f.cursorY == g.cursorY && f.cursorVisible == g.cursorVisible
  }

  /** Whatever was mirrored before, an update from a well-formed grid displays that grid. */
  lemma UpdateShows(f: Frame, g: Grid)
    requires ValidFrame(f) && WellFormed(g)
    ensures Shows(UpdateFrom(f, g), g)
  {
    assert UpdateFrom(f, g).cells == g.cells by {
      assert g.rows * g.cols == |g.cells|;
    }
  }

  /** The cell shown at a position, if the frame reaches there. */
  function ShownAt(f: Frame, x: nat, y: nat): (c: Option<Cell>)
    requires ValidFrame(f)
    ensures c.Some? <==> InFrame(f, x, y)
  {
    if InFrame(f, x, y) then Some(f.cells[At(f, x, y)]) else None
  }

  /** The painter looks at a frame that is dirty or asks for a clear. */
  predicate Painted(f: Frame) {
    f.dirty || f.clearRequested
  }

  /** Any change of dimensions included, a position shown differently lies in a marked row of a frame to be painted. */
  lemma UpdateMarksChanges(f: Frame, g: Grid, x: nat, y: nat)
    requires ValidFrame(f) && InFrame(UpdateFrom(f, g), x, y)
    requires ShownAt(f, x, y) != ShownAt(UpdateFrom(f, g), x, y)
    ensures UpdateFrom(f, g).rowDirty[y] && Painted(UpdateFrom(f, g))
  {
    if f.cols == g.cols && f.rows == g.rows {
      assert CellDiffers(f, g, x, y);
      assert RowDiffers(f, g, y, f.cols);
    }
  }

  lemma CellKept(f: Frame, g: Grid, k: nat)
    requires ValidFrame(f) && !AnyRowDiffers(f, g, f.rows) && k < |f.cells| && k < |g.cells|
    ensures f.cells[k] == g.cells[k]
  {
    hide ValidFrame, At;
    var x, y := PositionOf(f, k);
    assert !RowDiffers(f, g, y, f.cols);
    assert !CellDiffers(f, g, x, y);
  }

  lemma NothingCopied(f: Frame, g: Grid)
    requires ValidFrame(f) && !AnyRowDiffers(f, g, f.rows)
    ensures CopiedRows(f, g, f.rows) == f
  {
    var c := CopiedRows(f, g, f.rows);
    forall k | 0 <= k < |f.cells| ensures c.cells[k] == f.cells[k] {
      if k < |g.cells| {
        CellKept(f, g, k);
      }
    }
    assert c.cells == f.cells;
    assert c.rowDirty == f.rowDirty;
  }

  /** And a frame that is not to be painted was not changed at all. */
  lemma UnpaintedIsUnchanged(f: Frame, g: Grid)
    requires ValidFrame(f) && !Painted(UpdateFrom(f, g))
    ensures UpdateFrom(f, g) == f
  {
    hide AnyRowDiffers, CellsFrom;
    NothingCopied(f, g);
  }

  lemma NoRows(cols: nat, rows: nat)
    ensures rows == 0 ==> cols * rows == 0
  {
  }

  lemma {:induction false} RowAndColumn(cols: nat, rows: nat, k: nat) returns (x: nat, y: nat)
    requires k < cols * rows
    ensures x < cols && y < rows && y * cols + x == k
    decreases rows
  {
    NoRows(cols, rows);
    assert cols * rows == cols * (rows - 1) + cols;
    if k < cols * (rows - 1) {
      x, y := RowAndColumn(cols, rows - 1, k);
    } else {
      x, y := k - cols * (rows - 1), rows - 1;
    }
  }

  lemma PositionOf(f: Frame, k: nat) returns (x: nat, y: nat)
    requires ValidFrame(f) && k < |f.cells|
    ensures InFrame(f, x, y) && At(f, x, y) == k
  {
    x, y := RowAndColumn(f.cols, f.rows, k);
  }

  /** The dirty flag alone does not tell: a resize to blank cells changes a clean frame and leaves it clean. */
  lemma ResizedFrameStaysClean() returns (f: Frame, g: Grid)
    ensures ValidFrame(f) && ShownAt(f, 0, 0) != ShownAt(UpdateFrom(f, g), 0, 0)
    ensures !UpdateFrom(f, g).dirty && UpdateFrom(f, g).clearRequested
  {
    f := Frame(1, 1, [Cell("x", None, None, 0)], [false], 0, 0, false, false, 0, false);
    g := BlankGrid(2, 1);
    var r := Resized(f, g);
    assert r.cells == g.cells;
    assert UpdateFrom(f, g).cells[0] == BLANK;
    assert !RowDiffers(r, g, 0, 2);
  }

  /** `set_reconnecting`: the frame is dirty, and the last row is repainted when the banner over it goes away. */
  function WithBanner(f: Frame, reconnecting: bool): (f': Frame)
    ensures f' == f.(dirty := true, rowDirty := f'.rowDirty) && |f'.rowDirty| == |f.rowDirty|
  {
    f.(dirty := true,
       rowDirty := if reconnecting || f.rowDirty == [] then f.rowDirty else f.rowDirty[|f.rowDirty| - 1 := true])
  }

  class TerminalFrame {
    var cols: u16
    var rows: u16
    var cells: seq<Cell>
    var rowDirty: seq<bool>
    var cursorX: u16
    var cursorY: u16
    var cursorVisible: bool
    var dirty: bool
    var lastSeq: nat
    var clearRequested: bool

    function Value(): (r: Frame)
      reads this
    {
      Frame(cols, rows, cells, rowDirty, cursorX, cursorY, cursorVisible, dirty, lastSeq, clearRequested)
    }

    constructor (cols: u16, rows: u16)
      ensures ValidFrame(Value())
      ensures Value() == Frame(cols, rows, BlankGrid(cols, rows).cells, seq(rows, _ => true), 0, 0, false, true, 0,
                               false)
    {
      assert cols * rows >= 0;
      this.cols, this.rows := cols, rows;
      cells, rowDirty := seq(cols * rows, _ => BLANK), seq(rows, _ => true);
      cursorX, cursorY, cursorVisible := 0, 0, false;
      dirty, lastSeq, clearRequested := true, 0, false;
    }

    /** A change of dimensions throws the old cells away and asks for a physical clear. */
    method Resize(g: Grid) returns (resized: bool)
      requires ValidFrame(Value())
      modifies this`cols, this`rows, this`cells, this`rowDirty, this`clearRequested
      ensures Value() == Resized(old(Value()), g)
      ensures resized <==> old(cols) != g.cols || old(rows) != g.rows
    {
      resized := false;
      if cols != g.cols || rows != g.rows {
        cols, rows := g.cols, g.rows;
        assert cols * rows >= 0;
        cells, rowDirty := seq(cols * rows, _ => BLANK), seq(rows, _ => true);
        resized := true;
        clearRequested := true;
      }
    }

    method UpdateFromGridState(g: Grid) returns (resized: bool)
      requires ValidFrame(Value())
      modifies this
      ensures Value() == UpdateFrom(old(Value()), g)
      ensures resized <==> old(cols) != g.cols || old(rows) != g.rows
    {
      hide CopiedRows, Resized;
      resized := Resize(g);
      CopyCells(g);
      CopyCursor(g);
    }

    method CopyCursor(g: Grid)
      modifies this`cursorX, this`cursorY, this`cursorVisible, this`dirty
      ensures Value() == old(Value()).(cursorX := g.cursorX, cursorY := g.cursorY, cursorVisible := g.cursorVisible,
                                       dirty := old(dirty) || CursorDiffers(old(Value()), g))
    {
      if cursorX != g.cursorX || cursorY != g.cursorY || cursorVisible != g.cursorVisible {
        cursorX, cursorY, cursorVisible := g.cursorX, g.cursorY, g.cursorVisible;
        dirty := true;
      }
    }

    /** A frame without rows has no last row to mark; the source's index would be out of bounds. */
    method SetReconnecting(reconnecting: bool)
      requires ValidFrame(Value()) && (reconnecting || rows > 0)
      modifies this`dirty, this`rowDirty
      ensures Value() == WithBanner(old(Value()), reconnecting)
    {
      dirty := true;
      if !reconnecting {
        rowDirty := rowDirty[rows - 1 := true];
      }
    }

    /** Overwrites the cells that differ and marks their rows. */
    method CopyCells(g: Grid)
      requires ValidFrame(Value()) && cols == g.cols && rows == g.rows
      modifies this
      ensures Value() == CopiedRows(old(Value()), g, old(rows))
    {
      hide RowDiffers, CellsFrom, AnyRowDiffers;
      ghost var r := Value();
      CopyNoRows(r, g);
      for y := 0 to rows
        invariant Value() == CopiedRows(r, g, y)
      {
        CopyNextRow(r, g, y);
        var rowChanged := CopyRow(g, y, r, y * cols);
        if rowChanged {
          rowDirty := rowDirty[y := true];
          dirty := true;
        }
      }
    }

    /** Cells `lo..lo + cols` are row `y`; the ones before it are already copied. */
    method CopyRow(g: Grid, y: nat, ghost r: Frame, ghost lo: nat) returns (rowChanged: bool)
      requires ValidFrame(r) && Value() == r.(cells := cells, rowDirty := rowDirty, dirty := dirty)
      requires r.cols == g.cols && y < r.rows && lo == y * r.cols && lo + r.cols <= |r.cells|
      requires cells == CellsFrom(r, g, lo)
      modifies this`cells
      ensures cells == CellsFrom(r, g, lo + cols)
      ensures rowChanged <==> RowDiffers(r, g, y, cols)
    {
      rowChanged := false;
      for x := 0 to cols
        invariant cells == CellsFrom(r, g, lo + x)
        invariant rowChanged <==> RowDiffers(r, g, y, x)
      {
        var idx := y * cols + x;
        assert idx == At(r, x, y) == lo + x;
        if idx < |cells| && idx < |g.cells| && cells[idx] != g.cells[idx] {
          rowChanged := true;
          cells := cells[idx := g.cells[idx]];
        }
        assert cells == CellsFrom(r, g, lo + x + 1);
        assert RowDiffers(r, g, y, x + 1) <==> RowDiffers(r, g, y, x) || CellDiffers(r, g, x, y);
      }
    }
  }
}

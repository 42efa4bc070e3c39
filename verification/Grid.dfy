/** The terminal grid (src/protocol/grid.rs): delta diffing and delta patching. */
module TerminalGrid {
  import opened Base

  datatype Rgb = Rgb(r: byte, g: byte, b: byte)

  datatype Cell = Cell(grapheme: string, fg: Option<Rgb>, bg: Option<Rgb>, style: byte)

  const BLANK := Cell(" ", None, None, 0)

  datatype CellUpdate = CellUpdate(x: u16, cell: Cell)

  datatype RowUpdate = RowUpdate(y: u16, cells: seq<CellUpdate>, isWrapped: bool)

  datatype FrameUpdate = FrameUpdate(refSeq: nat, cols: u16, rows: u16, cursorX: u16, cursorY: u16,
                                     cursorVisible: bool, rowUpdates: seq<RowUpdate>, echo: bool)

  datatype Grid = Grid(cols: u16, rows: u16, cursorX: u16, cursorY: u16, cursorVisible: bool,
                       cells: seq<Cell>, rowWrapped: seq<bool>)

  /** `diff_from` computes cell indices in u16, so they are exact up to this many cells. */
  const MAX_CELLS := 0x1_0000

  predicate WellFormed(g: Grid) {
    |g.cells| == g.cols * g.rows && |g.rowWrapped| == g.rows
  }

  /** A grid whose every cell index fits in u16. */
  predicate Fits(g: Grid) {
    WellFormed(g) && g.cols * g.rows <= MAX_CELLS
  }

  predicate SameSize(a: Grid, b: Grid) {
    a.cols == b.cols && a.rows == b.rows
  }

  function BlankGrid(cols: u16, rows: u16): (g: Grid)
    ensures WellFormed(g)
  {
    assert cols * rows >= 0;
    Grid(cols, rows, 0, 0, false, seq(cols * rows, _ => BLANK), seq(rows, _ => false))
  }

  lemma InBounds(cols: nat, rows: nat, x: nat, y: nat)
    requires x < cols && y < rows
    ensures 0 <= y * cols + x < cols * rows
    ensures y * cols + cols <= cols * rows
  {
    assert (y + 1) * cols <= rows * cols;
  }

  lemma RowBounds(cols: nat, rows: nat, y: nat)
    requires y < rows
    ensures 0 <= y * cols && y * cols + cols == (y + 1) * cols <= rows * cols
  {
    assert (y + 1) * cols <= rows * cols;
  }

  /** Row-major position of a cell, as the patching side computes it (usize). */
  function Index(g: Grid, x: nat, y: nat): (i: nat)
    requires WellFormed(g) && x < g.cols && y < g.rows
    ensures i < |g.cells|
  {
    InBounds(g.cols, g.rows, x, y);
    y * g.cols + x
  }

  /** The same position as the diffing side computes it: u16 arithmetic, wrapping. */
  function Index16(g: Grid, x: nat, y: nat): (i: nat)
    requires WellFormed(g) && x < g.cols && y < g.rows
    ensures i < |g.cells|
    ensures g.cols * g.rows <= MAX_CELLS ==> i == Index(g, x, y)
  {
    Index(g, x, y) % MAX_CELLS
  }

  // ----- diff_from -----

  /** The reference is only used when its dimensions match. */
  predicate Comparable(t: Grid, base: Option<Grid>) {
    WellFormed(t) && (base.Some? ==> WellFormed(base.value) && SameSize(t, base.value))
  }

  function UsableReference(t: Grid, reference: Option<Grid>): (base: Option<Grid>)
    requires WellFormed(t) && (reference.Some? ==> WellFormed(reference.value))
    ensures Comparable(t, base)
  {
    if reference.Some? && SameSize(t, reference.value) then reference else None
  }

  function BaseCell(t: Grid, base: Option<Grid>, x: nat, y: nat): (r: Cell)
    requires Comparable(t, base) && x < t.cols && y < t.rows
  {
    if base.Some? then base.value.cells[Index16(base.value, x, y)] else BLANK
  }

  function BaseWrap(t: Grid, base: Option<Grid>, y: nat): (r: bool)
    requires Comparable(t, base) && y < t.rows
  {
    base.Some? && base.value.rowWrapped[y]
  }

  /** Updates for the changed cells of row `y`, columns below `x`. */
  function RowCells(t: Grid, base: Option<Grid>, y: nat, x: nat): (r: seq<CellUpdate>)
    requires Comparable(t, base) && y < t.rows && x <= t.cols
  {
    if x == 0 then []
    else
      AddCell(RowCells(t, base, y, x - 1), t, base, y, x - 1)
  }

  /** A cell gets an update when it differs from the base. */
  function AddCell(us: seq<CellUpdate>, t: Grid, base: Option<Grid>, y: nat, x: nat): (r: seq<CellUpdate>)
    requires Comparable(t, base) && y < t.rows && x < t.cols
  {
    var cell := t.cells[Index16(t, x, y)];
    if cell != BaseCell(t, base, x, y) then us + [CellUpdate(x, cell)] else us
  }

  /** Updates for the changed rows below `y`. */
  function ChangedRows(t: Grid, base: Option<Grid>, y: nat): (r: seq<RowUpdate>)
    requires Comparable(t, base) && y <= t.rows
  {
    if y == 0 then []
    else
      AddRow(ChangedRows(t, base, y - 1), RowCells(t, base, y - 1, t.cols), t, base, y - 1)
  }

  /** A row gets an update when it has changed cells or its wrap flag changed. */
  function AddRow(us: seq<RowUpdate>, cells: seq<CellUpdate>, t: Grid, base: Option<Grid>, y: nat): (r: seq<RowUpdate>)
    requires Comparable(t, base) && y < t.rows
  {
    if cells != [] || t.rowWrapped[y] != BaseWrap(t, base, y) then us + [RowUpdate(y, cells, t.rowWrapped[y])] else us
  }

  function DiffFrom(t: Grid, reference: Option<Grid>, refSeq: nat, echo: bool): (r: FrameUpdate)
    requires WellFormed(t) && (reference.Some? ==> WellFormed(reference.value))
  {
    var base := UsableReference(t, reference);
    FrameUpdate(refSeq, t.cols, t.rows, t.cursorX, t.cursorY, t.cursorVisible, ChangedRows(t, base, t.rows), echo)
  }

  // ----- patch -----

  /** `ok` is false when an update was out of bounds; the grid is then half patched. */
  datatype Patched = Patched(grid: Grid, ok: bool)

  function PatchCells(g: Grid, y: nat, us: seq<CellUpdate>): (p: Patched)
    requires WellFormed(g) && y < g.rows
    ensures WellFormed(p.grid) && p.grid == g.(cells := p.grid.cells)
  {
    if us == [] then Patched(g, true)
    else
      var p := PatchCells(g, y, us[..|us| - 1]);
      var u := us[|us| - 1];
      if !p.ok then p
      else if u.x >= g.cols then Patched(p.grid, false)
      else Patched(p.grid.(cells := p.grid.cells[Index(p.grid, u.x, y) := u.cell]), true)
  }

  function PatchRow(g: Grid, u: RowUpdate): (p: Patched)
    requires WellFormed(g)
    ensures WellFormed(p.grid) && SameSize(p.grid, g)
  {
    if u.y >= g.rows then Patched(g, false)
    else PatchCells(g.(rowWrapped := g.rowWrapped[u.y := u.isWrapped]), u.y, u.cells)
  }

  function PatchRows(g: Grid, us: seq<RowUpdate>): (p: Patched)
    requires WellFormed(g)
    ensures WellFormed(p.grid) && SameSize(p.grid, g)
  {
    if us == [] then Patched(g, true)
    else
      var p := PatchRows(g, us[..|us| - 1]);
      if !p.ok then p else PatchRow(p.grid, us[|us| - 1])
  }

  /** The grid whose cells are patched: self, or a blank one when the diff changes the dimensions. */
  function Canvas(g: Grid, diff: FrameUpdate): (c: Grid)
    requires WellFormed(g)
    ensures WellFormed(c) && c.cols == diff.cols && c.rows == diff.rows
  {
    if g.cols == diff.cols && g.rows == diff.rows then g
    else
      var b := BlankGrid(diff.cols, diff.rows);
      g.(cols := b.cols, rows := b.rows, cells := b.cells, rowWrapped := b.rowWrapped)
  }

  function Patch(g: Grid, diff: FrameUpdate): (p: Patched)
    requires WellFormed(g)
    ensures WellFormed(p.grid)
  {
    var p := PatchRows(Canvas(g, diff), diff.rowUpdates);
    if !p.ok then p
    else Patched(p.grid.(cursorX := diff.cursorX, cursorY := diff.cursorY, cursorVisible := diff.cursorVisible), true)
  }

  // ----- the in-place form -----

  class GridState {
    var cols: u16
    var rows: u16
    var cursorX: u16
    var cursorY: u16
    var cursorVisible: bool
    var cells: seq<Cell>
    var rowWrapped: seq<bool>

    function Value(): (r: Grid)
      reads this
    {
      Grid(cols, rows, cursorX, cursorY, cursorVisible, cells, rowWrapped)
    }

    constructor (g: Grid)
      ensures Value() == g
    {
      cols, rows, cursorX, cursorY := g.cols, g.rows, g.cursorX, g.cursorY;
      cursorVisible, cells, rowWrapped := g.cursorVisible, g.cells, g.rowWrapped;
    }

    /** Leaves the grid unchanged and collects the updates row by row, cell by cell. */
    method Diff(reference: Option<Grid>, refSeq: nat, echo: bool) returns (d: FrameUpdate)
      requires WellFormed(Value()) && (reference.Some? ==> WellFormed(reference.value))
      ensures d == DiffFrom(Value(), reference, refSeq, echo)
    {
      ghost var t := Value();
      var base := UsableReference(Value(), reference);
      var rowUpdates: seq<RowUpdate> := [];
      for y := 0 to rows
        invariant rowUpdates == ChangedRows(t, base, y)
      {
        var changed: seq<CellUpdate> := [];
        for x := 0 to cols
          invariant changed == RowCells(t, base, y, x)
        {
          var toCell := cells[Index16(Value(), x, y)];
          var fromCell := if base.Some? then base.value.cells[Index16(base.value, x, y)] else BLANK;
          if toCell != fromCell {
            changed := changed + [CellUpdate(x, toCell)];
          }
        }
        var wrappingChanged := if base.Some? then rowWrapped[y] != base.value.rowWrapped[y] else rowWrapped[y];
        if changed != [] || wrappingChanged {
          rowUpdates := rowUpdates + [RowUpdate(y, changed, rowWrapped[y])];
        }
      }
      d := FrameUpdate(refSeq, cols, rows, cursorX, cursorY, cursorVisible, rowUpdates, echo);
    }

    /** One row of updates, cell by cell; stops at the first column that is out of bounds. */
    method ApplyRow(u: RowUpdate) returns (ok: bool)
      requires WellFormed(Value())
      modifies this
      ensures Patched(Value(), ok) == PatchRow(old(Value()), u)
    {
      if u.y >= rows {
        return false;
      }
      rowWrapped := rowWrapped[u.y := u.isWrapped];
      ghost var start := Value();
      for j := 0 to |u.cells|
        invariant Patched(Value(), true) == PatchCells(start, u.y, u.cells[..j])
      {
        var c := u.cells[j];
        assert u.cells[..j + 1][..j] == u.cells[..j];
        PatchCellsStops(start, u.y, u.cells, j + 1);
        if c.x >= cols {
          return false;
        }
        cells := cells[Index(Value(), c.x, u.y) := c.cell];
      }
      assert u.cells[..|u.cells|] == u.cells;
      return true;
    }

    /** A change of dimensions starts from blank cells and no wrapped rows. */
    method Resize(diff: FrameUpdate)
      requires WellFormed(Value())
      modifies this`cols, this`rows, this`cells, this`rowWrapped
      ensures Value() == Canvas(old(Value()), diff)
    {
      if cols != diff.cols || rows != diff.rows {
        cols, rows := diff.cols, diff.rows;
        assert cols * rows >= 0;
        cells := seq(cols * rows, _ => BLANK);
        rowWrapped := seq(rows, _ => false);
      }
    }

    method ApplyRows(us: seq<RowUpdate>) returns (ok: bool)
      requires WellFormed(Value())
      modifies this
      ensures Patched(Value(), ok) == PatchRows(old(Value()), us)
    {
      hide PatchRow;
      ghost var canvas := Value();
      for i := 0 to |us|
        invariant Patched(Value(), true) == PatchRows(canvas, us[..i])
      {
        assert us[..i + 1][..i] == us[..i];
        PatchRowsStops(canvas, us, i + 1);
        ok := ApplyRow(us[i]);
        if !ok {
          return;
        }
      }
      assert us[..|us|] == us;
      ok := true;
    }

    /** Overwrites cells and wrap flags in place; stops at the first update that is out of bounds. */
    method ApplyPatch(diff: FrameUpdate) returns (ok: bool)
      requires WellFormed(Value())
      modifies this
      ensures Patched(Value(), ok) == Patch(old(Value()), diff)
    {
      hide Canvas, PatchRows;
      Resize(diff);
      ok := ApplyRows(diff.rowUpdates);
      if ok {
        cursorX, cursorY, cursorVisible := diff.cursorX, diff.cursorY, diff.cursorVisible;
      }
    }
  }

  /** Once an update is out of bounds, nothing after it is applied. */
  lemma {:induction false} PatchCellsStops(g: Grid, y: nat, us: seq<CellUpdate>, n: nat)
    requires WellFormed(g) && y < g.rows && n <= |us|
    ensures !PatchCells(g, y, us[..n]).ok ==> PatchCells(g, y, us) == PatchCells(g, y, us[..n])
    decreases |us|
  {
    if n < |us| {
      PatchCellsStops(g, y, us[..|us| - 1], n);
      assert us[..|us| - 1][..n] == us[..n];
    } else {
      assert us[..n] == us;
    }
  }

  lemma {:induction false} PatchRowsStops(g: Grid, us: seq<RowUpdate>, n: nat)
    requires WellFormed(g) && n <= |us|
    ensures !PatchRows(g, us[..n]).ok ==> PatchRows(g, us) == PatchRows(g, us[..n])
    decreases |us|
  {
    if n < |us| {
      PatchRowsStops(g, us[..|us| - 1], n);
      assert us[..|us| - 1][..n] == us[..n];
    } else {
      assert us[..n] == us;
    }
  }

  // ----- when a patch fails -----

  predicate InGrid(u: RowUpdate, cols: nat, rows: nat) {
    u.y < rows && forall c | c in u.cells :: c.x < cols
  }

  lemma {:induction false} CellsOkIff(g: Grid, y: nat, us: seq<CellUpdate>)
    requires WellFormed(g) && y < g.rows
    ensures PatchCells(g, y, us).ok <==> forall c | c in us :: c.x < g.cols
    decreases |us|
  {
    if us != [] {
      CellsOkIff(g, y, us[..|us| - 1]);
      assert us == us[..|us| - 1] + [us[|us| - 1]];
    }
  }

  lemma RowOkIff(g: Grid, u: RowUpdate)
    requires WellFormed(g)
    ensures PatchRow(g, u).ok <==> InGrid(u, g.cols, g.rows)
  {
    if u.y < g.rows {
      CellsOkIff(g.(rowWrapped := g.rowWrapped[u.y := u.isWrapped]), u.y, u.cells);
    }
  }

  lemma {:induction false} RowsOkIff(g: Grid, us: seq<RowUpdate>)
    requires WellFormed(g)
    ensures PatchRows(g, us).ok <==> forall u | u in us :: InGrid(u, g.cols, g.rows)
    decreases |us|
  {
    if us != [] {
      hide PatchRow, InGrid;
      RowsOkIff(g, us[..|us| - 1]);
      RowOkIff(PatchRows(g, us[..|us| - 1]).grid, us[|us| - 1]);
      assert us == us[..|us| - 1] + [us[|us| - 1]];
    }
  }

  /** A patch fails exactly when some update lies outside the dimensions it announces. */
  lemma PatchFailsIff(g: Grid, d: FrameUpdate)
    requires WellFormed(g)
    ensures Patch(g, d).ok <==> forall u | u in d.rowUpdates :: InGrid(u, d.cols, d.rows)
  {
    hide InGrid, PatchRows;
    RowsOkIff(Canvas(g, d), d.rowUpdates);
  }

  /** The updates before the first one out of bounds, the good cells of its own row included. */
  predicate CutAtFirstBad(us: seq<RowUpdate>, good: seq<RowUpdate>, cols: nat, rows: nat, n: nat, k: nat) {
    && n < |us|
    && if us[n].y >= rows then good == us[..n]
       else && k < |us[n].cells| && us[n].cells[k].x >= cols
            && good == us[..n] + [RowUpdate(us[n].y, us[n].cells[..k], us[n].isWrapped)]
  }

  lemma {:induction false} FirstBadCell(g: Grid, y: nat, us: seq<CellUpdate>) returns (k: nat)
    requires WellFormed(g) && y < g.rows && !PatchCells(g, y, us).ok
    ensures k < |us| && us[k].x >= g.cols && PatchCells(g, y, us[..k]) == Patched(PatchCells(g, y, us).grid, true)
    decreases |us|
  {
    var before := us[..|us| - 1];
    if PatchCells(g, y, before).ok {
      k := |us| - 1;
    } else {
      k := FirstBadCell(g, y, before);
      assert before[..k] == us[..k];
    }
  }

  lemma {:induction false} FirstBadRow(g: Grid, us: seq<RowUpdate>) returns (good: seq<RowUpdate>, n: nat, k: nat)
    requires WellFormed(g) && !PatchRows(g, us).ok
    ensures CutAtFirstBad(us, good, g.cols, g.rows, n, k)
    ensures PatchRows(g, good) == Patched(PatchRows(g, us).grid, true)
    decreases |us|
  {
    hide PatchCells;
    var before := us[..|us| - 1];
    var p := PatchRows(g, before);
    if !p.ok {
      good, n, k := FirstBadRow(g, before);
      assert before[..n] == us[..n];
    } else {
      var u := us[|us| - 1];
      n, k, good := |us| - 1, 0, before;
      if u.y < g.rows {
        k := FirstBadCell(p.grid.(rowWrapped := p.grid.rowWrapped[u.y := u.isWrapped]), u.y, u.cells);
        good := before + [RowUpdate(u.y, u.cells[..k], u.isWrapped)];
        assert good[..|good| - 1] == before;
      }
    }
  }

  /** A failing patch leaves what the updates before the first bad one leave, with the cursor where it was. */
  lemma FailedPatchIsPartial(g: Grid, d: FrameUpdate) returns (good: seq<RowUpdate>, n: nat, k: nat)
    requires WellFormed(g) && !Patch(g, d).ok
    ensures CutAtFirstBad(d.rowUpdates, good, d.cols, d.rows, n, k)
    ensures Patch(g, d.(rowUpdates := good)).ok
    ensures Patch(g, d).grid
            == Patch(g, d.(rowUpdates := good)).grid.(
                 cursorX := g.cursorX, cursorY := g.cursorY, cursorVisible := g.cursorVisible)
  {
    hide PatchRows, CutAtFirstBad;
    good, n, k := FirstBadRow(Canvas(g, d), d.rowUpdates);
    PatchKeepsCursor(Canvas(g, d), d.rowUpdates);
  }

  lemma {:induction false} PatchKeepsCursor(g: Grid, us: seq<RowUpdate>)
    requires WellFormed(g)
    ensures var p := PatchRows(g, us).grid; p == g.(cells := p.cells, rowWrapped := p.rowWrapped)
    decreases |us|
  {
    hide PatchCells;
    if us != [] {
      PatchKeepsCursor(g, us[..|us| - 1]);
    }
  }

  // ----- round trip -----

  /** What the diffing side compares row `y` against is what the patching side starts from. */
  ghost predicate StartsFrom(g: Grid, t: Grid, base: Option<Grid>) {
    && Comparable(t, base) && WellFormed(g) && SameSize(g, t)
    && (forall x: nat, y: nat | x < t.cols && y < t.rows :: g.cells[Index(g, x, y)] == BaseCell(t, base, x, y))
    && (forall y: nat | y < t.rows :: g.rowWrapped[y] == BaseWrap(t, base, y))
  }

  /** Patching row `y` (which starts at cell `lo`) with `us` makes its first `x` cells the target's. */
  predicate RowPatched(g: Grid, t: Grid, us: seq<CellUpdate>, y: nat, x: nat, lo: nat) {
    && WellFormed(g) && WellFormed(t) && SameSize(g, t) && y < g.rows && PatchCells(g, y, us).ok
    && forall k | 0 <= k < |g.cells| ::
         PatchCells(g, y, us).grid.cells[k] == if lo <= k < lo + x then t.cells[k] else g.cells[k]
  }

  lemma PatchOneCell(g: Grid, t: Grid, base: Option<Grid>, us: seq<CellUpdate>, y: nat, x: nat, lo: nat)
    requires Fits(t) && Comparable(t, base) && RowPatched(g, t, us, y, x, lo)
    requires x < t.cols && lo == y * g.cols && g.cells[Index(g, x, y)] == BaseCell(t, base, x, y)
    ensures RowPatched(g, t, AddCell(us, t, base, y, x), y, x + 1, lo)
  {
    hide PatchCells, WellFormed, Index, Index16, BaseCell;
    SameIndex(g, t, x, y);
    var last := CellUpdate(x, t.cells[Index16(t, x, y)]);
    if last.cell == BaseCell(t, base, x, y) {
      assert AddCell(us, t, base, y, x) == us;
    } else {
      assert AddCell(us, t, base, y, x) == us + [last];
      PatchLast(g, y, us, last);
    }
  }

  lemma SameIndex(g: Grid, t: Grid, x: nat, y: nat)
    requires WellFormed(g) && Fits(t) && SameSize(g, t) && x < t.cols && y < t.rows
    ensures Index(g, x, y) == Index16(t, x, y) == y * g.cols + x
  {
  }

  lemma PatchLast(g: Grid, y: nat, us: seq<CellUpdate>, u: CellUpdate)
    requires WellFormed(g) && y < g.rows && PatchCells(g, y, us).ok && u.x < g.cols
    ensures var p, q := PatchCells(g, y, us).grid, PatchCells(g, y, us + [u]);
            |p.cells| == |g.cells| && q.ok && q.grid.cells == p.cells[Index(g, u.x, y) := u.cell]
  {
    hide Index;
    assert (us + [u])[..|us|] == us;
    IndexBySize(g, PatchCells(g, y, us).grid, u.x, y);
  }

  lemma IndexBySize(g: Grid, h: Grid, x: nat, y: nat)
    requires WellFormed(g) && WellFormed(h) && SameSize(g, h) && x < g.cols && y < g.rows
    ensures Index(g, x, y) == Index(h, x, y)
  {
  }

  /** Row `y` of the grid is what the diffing side compares against. */
  ghost predicate RowStarts(g: Grid, t: Grid, base: Option<Grid>, y: nat) {
    && Comparable(t, base) && WellFormed(g) && SameSize(g, t) && y < t.rows
    && forall c: nat | c < t.cols :: g.cells[Index(g, c, y)] == BaseCell(t, base, c, y)
  }

  lemma NothingInRow(g: Grid, t: Grid, base: Option<Grid>, y: nat, lo: nat)
    requires Comparable(t, base) && WellFormed(g) && SameSize(g, t) && y < t.rows
    ensures RowPatched(g, t, RowCells(t, base, y, 0), y, 0, lo)
  {
  }

  lemma PatchNextCell(g: Grid, t: Grid, base: Option<Grid>, us: seq<CellUpdate>, y: nat, x: nat, lo: nat)
    requires Fits(t) && RowStarts(g, t, base, y) && RowPatched(g, t, us, y, x, lo) && x < t.cols && lo == y * g.cols
    ensures RowPatched(g, t, AddCell(us, t, base, y, x), y, x + 1, lo)
  {
    hide RowPatched, AddCell;
    PatchOneCell(g, t, base, us, y, x, lo);
  }

  lemma {:induction false} PatchOneRow(g: Grid, t: Grid, base: Option<Grid>, y: nat, x: nat, lo: nat)
    requires Fits(t) && RowStarts(g, t, base, y) && x <= t.cols && lo == y * g.cols
    ensures RowPatched(g, t, RowCells(t, base, y, x), y, x, lo)
    decreases x
  {
    hide RowPatched, AddCell, RowCells, BaseCell;
    if x == 0 {
      NothingInRow(g, t, base, y, lo);
    } else {
      PatchOneRow(g, t, base, y, x - 1, lo);
      PatchNextCell(g, t, base, RowCells(t, base, y, x - 1), y, x - 1, lo);
      RowCellsNext(t, base, y, x - 1);
    }
  }

  /** `p` is `g` with its first `y` rows replaced by the target's. */
  predicate RowsDone(p: Grid, g: Grid, t: Grid, y: nat) {
    && WellFormed(g) && WellFormed(t) && WellFormed(p) && SameSize(g, t) && y <= t.rows
    && p == g.(cells := p.cells, rowWrapped := p.rowWrapped)
    && (forall k | 0 <= k < |g.cells| :: p.cells[k] == if k < y * g.cols then t.cells[k] else g.cells[k])
    && (forall k | 0 <= k < g.rows :: p.rowWrapped[k] == if k < y then t.rowWrapped[k] else g.rowWrapped[k])
  }

  lemma PatchNextRow(p: Grid, g: Grid, t: Grid, base: Option<Grid>, y: nat)
    requires Fits(t) && StartsFrom(g, t, base) && y < t.rows && RowsDone(p, g, t, y)
    ensures var q := PatchRow(p, RowUpdate(y, RowCells(t, base, y, t.cols), t.rowWrapped[y]));
            q.ok && RowsDone(q.grid, g, t, y + 1)
  {
    var p' := p.(rowWrapped := p.rowWrapped[y := t.rowWrapped[y]]);
    var lo := y * g.cols;
    RowBounds(g.cols, g.rows, y);
    forall c: nat {:trigger Index(p', c, y)} | c < t.cols
      ensures p'.cells[Index(p', c, y)] == BaseCell(t, base, c, y)
    {
      assert Index(p', c, y) == Index(g, c, y) == lo + c;
    }
    PatchOneRow(p', t, base, y, t.cols, lo);
  }

  /** A row without updates already is the target's. */
  lemma SkipRow(p: Grid, g: Grid, t: Grid, base: Option<Grid>, y: nat)
    requires Fits(t) && StartsFrom(g, t, base) && y < t.rows && RowsDone(p, g, t, y)
    requires RowCells(t, base, y, t.cols) == [] && t.rowWrapped[y] == BaseWrap(t, base, y)
    ensures RowsDone(p, g, t, y + 1)
  {
    PatchNextRow(p, g, t, base, y);
    assert p.rowWrapped[y := t.rowWrapped[y]] == p.rowWrapped;
  }

  predicate PatchedTo(g: Grid, t: Grid, us: seq<RowUpdate>, y: nat) {
    WellFormed(g) && PatchRows(g, us).ok && RowsDone(PatchRows(g, us).grid, g, t, y)
  }

  /** After the first `y` rows of updates, those rows are the target's and the rest are untouched. */
  lemma {:induction false} PatchFirstRows(g: Grid, t: Grid, base: Option<Grid>, y: nat)
    requires Fits(t) && StartsFrom(g, t, base) && y <= t.rows
    ensures PatchedTo(g, t, ChangedRows(t, base, y), y)
    decreases y
  {
    hide PatchedTo, AddRow, RowCells;
    if y == 0 {
      NothingPatched(g, t);
    } else {
      PatchFirstRows(g, t, base, y - 1);
      PatchAddedRow(g, t, base, ChangedRows(t, base, y - 1), y - 1);
      assert ChangedRows(t, base, y)
          == AddRow(ChangedRows(t, base, y - 1), RowCells(t, base, y - 1, t.cols), t, base, y - 1);
    }
  }

  lemma NothingPatched(g: Grid, t: Grid)
    requires WellFormed(g) && WellFormed(t) && SameSize(g, t)
    ensures PatchedTo(g, t, [], 0)
  {
  }

  lemma PatchAddedRow(g: Grid, t: Grid, base: Option<Grid>, us: seq<RowUpdate>, y: nat)
    requires Fits(t) && StartsFrom(g, t, base) && y < t.rows
    requires PatchedTo(g, t, us, y)
    ensures PatchedTo(g, t, AddRow(us, RowCells(t, base, y, t.cols), t, base, y), y + 1)
  {
    var us' := AddRow(us, RowCells(t, base, y, t.cols), t, base, y);
    var p := PatchRows(g, us).grid;
    if us' == us {
      SkipRow(p, g, t, base, y);
    } else {
      PatchNextRow(p, g, t, base, y);
      assert us'[..|us'| - 1] == us;
    }
  }

  /** `p` is exactly the target, and no update was out of bounds. */
  predicate Yields(p: Patched, t: Grid) {
    p.ok && p.grid == t
  }

  /** Patching `g` with the diff against `reference` gives the target. */
  ghost predicate RoundTrips(t: Grid, g: Grid, reference: Option<Grid>)
    requires WellFormed(t) && WellFormed(g) && (reference.Some? ==> WellFormed(reference.value))
  {
    forall refSeq: nat, echo: bool :: Yields(Patch(g, DiffFrom(t, reference, refSeq, echo)), t)
  }

  /** The grid a client patches: its copy of the reference, or a blank grid of the target's size. */
  function PatchStart(t: Grid, reference: Option<Grid>): (r: Grid) {
    if reference.Some? then reference.value else BlankGrid(t.cols, t.rows)
  }

  lemma CanvasStarts(t: Grid, reference: Option<Grid>, refSeq: nat, echo: bool)
    requires Fits(t) && (reference.Some? ==> WellFormed(reference.value))
    ensures var c := Canvas(PatchStart(t, reference), DiffFrom(t, reference, refSeq, echo));
            StartsFrom(c, t, UsableReference(t, reference))
  {
    hide ChangedRows;
  }

  lemma AllRowsDone(p: Grid, g: Grid, t: Grid)
    requires RowsDone(p, g, t, t.rows)
    ensures p.cells == t.cells && p.rowWrapped == t.rowWrapped
  {
    assert t.rows * g.cols == |t.cells|;
  }

  lemma DiffPatchOnce(t: Grid, reference: Option<Grid>, refSeq: nat, echo: bool)
    requires Fits(t) && (reference.Some? ==> WellFormed(reference.value))
    ensures Yields(Patch(PatchStart(t, reference), DiffFrom(t, reference, refSeq, echo)), t)
  {
    hide StartsFrom, ChangedRows, PatchRows, RowsDone;
    var g, base := PatchStart(t, reference), UsableReference(t, reference);
    var d := DiffFrom(t, reference, refSeq, echo);
    var c := Canvas(g, d);
    CanvasStarts(t, reference, refSeq, echo);
    PatchFirstRows(c, t, base, t.rows);
    AllRowsDone(PatchRows(c, d.rowUpdates).grid, c, t);
  }

  /** Diff and patch are inverse for every target and reference, also across a change of dimensions. */
  lemma DiffPatchRoundTrip(t: Grid, reference: Option<Grid>)
    requires Fits(t) && (reference.Some? ==> WellFormed(reference.value))
    ensures RoundTrips(t, PatchStart(t, reference), reference)
  {
    hide Patch, DiffFrom;
    forall refSeq: nat, echo: bool
      ensures Yields(Patch(PatchStart(t, reference), DiffFrom(t, reference, refSeq, echo)), t)
    {
      DiffPatchOnce(t, reference, refSeq, echo);
    }
  }

  /** Every target of these dimensions survives diff and patch, against every reference of the same size. */
  ghost predicate AlwaysRoundTrips(cols: u16, rows: u16) {
    forall t: Grid, g: Grid |
      WellFormed(t) && WellFormed(g) && SameSize(t, g) && t.cols == cols && t.rows == rows ::
      RoundTrips(t, g, Some(g))
  }

  /** With more cells the u16 index wraps, and a change in a high cell is never looked at. */
  lemma DiffPatchExactlyUpTo65536Cells(cols: u16, rows: u16)
    ensures AlwaysRoundTrips(cols, rows) <==> cols * rows <= MAX_CELLS
  {
    if cols * rows <= MAX_CELLS {
      forall t: Grid, g: Grid |
        WellFormed(t) && WellFormed(g) && SameSize(t, g) && t.cols == cols && t.rows == rows
        ensures RoundTrips(t, g, Some(g))
      {
        DiffPatchRoundTrip(t, Some(g));
      }
    } else {
      var t, g := LostChange(cols, rows);
      assert !RoundTrips(t, g, Some(g));
    }
  }

  lemma LostChange(cols: u16, rows: u16) returns (t: Grid, g: Grid)
    requires cols * rows > MAX_CELLS
    ensures WellFormed(t) && WellFormed(g) && SameSize(t, g) && t.cols == cols && t.rows == rows && t.cells != g.cells
    ensures forall refSeq: nat, echo: bool :: DiffFrom(t, Some(g), refSeq, echo).rowUpdates == []
    ensures !RoundTrips(t, g, Some(g))
  {
    g := BlankGrid(cols, rows);
    t := g.(cells := g.cells[MAX_CELLS := Cell("x", None, None, 0)]);
    ChangeMissed(t, g, rows);
    var d := DiffFrom(t, Some(g), 1, true);
    assert Patch(g, d).grid.cells[MAX_CELLS] == BLANK != t.cells[MAX_CELLS];
    assert !Yields(Patch(g, d), t);
  }

  /** The grids agree below cell 65536. */
  predicate AgreeLow(t: Grid, g: Grid)
    requires WellFormed(t) && WellFormed(g) && SameSize(t, g)
  {
    forall k | 0 <= k < |t.cells| && k < MAX_CELLS :: t.cells[k] == g.cells[k]
  }

  /** The diff lists no update for a target that differs from the reference in high cells only. */
  lemma {:induction false} ChangeMissed(t: Grid, g: Grid, y: nat)
    requires WellFormed(t) && WellFormed(g) && SameSize(t, g) && AgreeLow(t, g)
    requires y <= t.rows && t.rowWrapped == g.rowWrapped
    ensures ChangedRows(t, Some(g), y) == []
    decreases y
  {
    hide AgreeLow, RowCells;
    if y > 0 {
      ChangeMissed(t, g, y - 1);
      RowChangeMissed(t, g, y - 1, t.cols);
      assert ChangedRows(t, Some(g), y) == AddRow([], [], t, Some(g), y - 1);
    }
  }

  lemma {:induction false} RowChangeMissed(t: Grid, g: Grid, y: nat, x: nat)
    requires WellFormed(t) && WellFormed(g) && SameSize(t, g) && AgreeLow(t, g)
    requires y < t.rows && x <= t.cols
    ensures RowCells(t, Some(g), y, x) == []
    decreases x
  {
    if x > 0 {
      RowChangeMissed(t, g, y, x - 1);
      assert RowCells(t, Some(g), y, x) == AddCell([], t, Some(g), y, x - 1);
    }
  }

  // ----- a diff is minimal and ordered -----

  predicate CellChanged(t: Grid, base: Option<Grid>, x: nat, y: nat)
    requires Comparable(t, base) && x < t.cols && y < t.rows
  {
    t.cells[Index16(t, x, y)] != BaseCell(t, base, x, y)
  }

  /** `us` lists, in increasing column order, the cells of row `y` below column `x` that changed. */
  ghost predicate ListsCells(us: seq<CellUpdate>, t: Grid, base: Option<Grid>, y: nat, x: nat)
    requires Comparable(t, base) && y < t.rows && x <= t.cols
  {
    && (forall i, j | 0 <= i < j < |us| :: us[i].x < us[j].x)
    && (forall u | u in us :: u.x < x && CellChanged(t, base, u.x, y) && u.cell == t.cells[Index16(t, u.x, y)])
    && (forall c: nat | c < x && CellChanged(t, base, c, y) :: CellUpdate(c, t.cells[Index16(t, c, y)]) in us)
  }

  lemma ListNextCell(us: seq<CellUpdate>, t: Grid, base: Option<Grid>, y: nat, x: nat)
    requires Comparable(t, base) && y < t.rows && x < t.cols && ListsCells(us, t, base, y, x)
    ensures ListsCells(AddCell(us, t, base, y, x), t, base, y, x + 1)
  {
    hide Index16, BaseCell, WellFormed;
    var us' := AddCell(us, t, base, y, x);
    if CellChanged(t, base, x, y) {
      var last := CellUpdate(x, t.cells[Index16(t, x, y)]);
      assert us' == us + [last];
      forall c: nat | c < x + 1 && CellChanged(t, base, c, y) ensures CellUpdate(c, t.cells[Index16(t, c, y)]) in us' {
        if c < x {
          assert CellUpdate(c, t.cells[Index16(t, c, y)]) in us;
        } else {
          assert last in us';
        }
      }
    } else {
      assert us' == us;
    }
  }

  lemma RowCellsNext(t: Grid, base: Option<Grid>, y: nat, x: nat)
    requires Comparable(t, base) && y < t.rows && x < t.cols
    ensures RowCells(t, base, y, x + 1) == AddCell(RowCells(t, base, y, x), t, base, y, x)
    ensures RowCells(t, base, y, 0) == []
  {
    hide AddCell;
  }

  lemma ListsNone(t: Grid, base: Option<Grid>, y: nat)
    requires Comparable(t, base) && y < t.rows
    ensures ListsCells(RowCells(t, base, y, 0), t, base, y, 0)
  {
  }

  lemma {:induction false} RowCellsLists(t: Grid, base: Option<Grid>, y: nat, x: nat)
    requires Comparable(t, base) && y < t.rows && x <= t.cols
    ensures ListsCells(RowCells(t, base, y, x), t, base, y, x)
    decreases x
  {
    hide ListsCells, AddCell, RowCells;
    if x == 0 {
      ListsNone(t, base, y);
    } else {
      RowCellsLists(t, base, y, x - 1);
      RowCellsNext(t, base, y, x - 1);
      ListNextCell(RowCells(t, base, y, x - 1), t, base, y, x - 1);
    }
  }

  /** Row `y` has a changed cell or a changed wrap flag. */
  ghost predicate RowChanged(t: Grid, base: Option<Grid>, y: nat)
    requires Comparable(t, base) && y < t.rows
  {
    || t.rowWrapped[y] != BaseWrap(t, base, y)
    || exists c: nat :: c < t.cols && CellChanged(t, base, c, y)
  }

  ghost predicate ListsRows(us: seq<RowUpdate>, t: Grid, base: Option<Grid>, y: nat)
    requires Comparable(t, base) && y <= t.rows
  {
    && (forall i, j | 0 <= i < j < |us| :: us[i].y < us[j].y)
    && (forall u | u in us :: u.y < y && RowChanged(t, base, u.y) && u.isWrapped == t.rowWrapped[u.y]
                              && ListsCells(u.cells, t, base, u.y, t.cols))
    && (forall r: nat | r < y && RowChanged(t, base, r) :: exists u :: u in us && u.y == r)
  }

  lemma CellsOfChangedRow(cells: seq<CellUpdate>, t: Grid, base: Option<Grid>, y: nat)
    requires Comparable(t, base) && y < t.rows && ListsCells(cells, t, base, y, t.cols)
    ensures RowChanged(t, base, y) <==> cells != [] || t.rowWrapped[y] != BaseWrap(t, base, y)
  {
    if cells != [] {
      assert cells[0] in cells;
      assert CellChanged(t, base, cells[0].x, y);
    }
  }

  lemma ListNextRow(us: seq<RowUpdate>, t: Grid, base: Option<Grid>, y: nat)
    requires Comparable(t, base) && y < t.rows && ListsRows(us, t, base, y)
    ensures ListsRows(AddRow(us, RowCells(t, base, y, t.cols), t, base, y), t, base, y + 1)
  {
    RowCellsLists(t, base, y, t.cols);
    ListRow(us, RowCells(t, base, y, t.cols), t, base, y);
  }

  lemma ListRow(us: seq<RowUpdate>, cells: seq<CellUpdate>, t: Grid, base: Option<Grid>, y: nat)
    requires Comparable(t, base) && y < t.rows
    requires ListsRows(us, t, base, y) && ListsCells(cells, t, base, y, t.cols)
    ensures ListsRows(AddRow(us, cells, t, base, y), t, base, y + 1)
  {
    CellsOfChangedRow(cells, t, base, y);
    if RowChanged(t, base, y) {
      var last := RowUpdate(y, cells, t.rowWrapped[y]);
      var us' := us + [last];
      assert last in us';
      forall r: nat | r < y + 1 && RowChanged(t, base, r) ensures exists u :: u in us' && u.y == r {
        if r < y {
          var u :| u in us && u.y == r;
          assert u in us';
        }
      }
      assert ListsRows(us', t, base, y + 1);
    } else {
      assert ListsRows(us, t, base, y + 1);
    }
  }

  lemma {:induction false} ChangedRowsLists(t: Grid, base: Option<Grid>, y: nat)
    requires Comparable(t, base) && y <= t.rows
    ensures ListsRows(ChangedRows(t, base, y), t, base, y)
    decreases y
  {
    hide ListsCells, RowChanged, AddRow, RowCells;
    if y > 0 {
      ChangedRowsLists(t, base, y - 1);
      ListNextRow(ChangedRows(t, base, y - 1), t, base, y - 1);
      assert ChangedRows(t, base, y)
          == AddRow(ChangedRows(t, base, y - 1), RowCells(t, base, y - 1, t.cols), t, base, y - 1);
    }
  }

  /** A diff names exactly the rows and cells found changed against the usable reference, in increasing order. */
  lemma DiffIsMinimalAndOrdered(t: Grid, reference: Option<Grid>, refSeq: nat, echo: bool)
    requires WellFormed(t) && (reference.Some? ==> WellFormed(reference.value))
    ensures ListsRows(DiffFrom(t, reference, refSeq, echo).rowUpdates, t, UsableReference(t, reference), t.rows)
  {
    ChangedRowsLists(t, UsableReference(t, reference), t.rows);
  }

  /** The cell shown at this position differs, whatever the diffing side looks at. */
  predicate Differs(t: Grid, base: Option<Grid>, x: nat, y: nat)
    requires Comparable(t, base) && x < t.cols && y < t.rows
  {
    t.cells[Index(t, x, y)] != if base.Some? then base.value.cells[Index(base.value, x, y)] else BLANK
  }

  /** The diffing side finds a cell changed exactly when it differs. */
  ghost predicate SeesEveryChange(t: Grid, base: Option<Grid>)
    requires Comparable(t, base)
  {
    forall x: nat, y: nat | x < t.cols && y < t.rows :: CellChanged(t, base, x, y) <==> Differs(t, base, x, y)
  }

  ghost predicate AlwaysSeesEveryChange(cols: u16, rows: u16) {
    forall t: Grid, base: Option<Grid> | Comparable(t, base) && t.cols == cols && t.rows == rows ::
      SeesEveryChange(t, base)
  }

  lemma FirstHighCell(cols: u16, rows: u16)
    requires cols * rows > MAX_CELLS
    ensures MAX_CELLS / cols < rows && MAX_CELLS % cols < cols
            && MAX_CELLS / cols * cols + MAX_CELLS % cols == MAX_CELLS
  {
    var y := MAX_CELLS / cols;
    assert y * cols - rows * cols == (y - rows) * cols;
  }

  /** So "changed" means "different" for all grids of these dimensions exactly up to 65536 cells. */
  lemma ChangesSeenExactlyUpTo65536Cells(cols: u16, rows: u16)
    ensures AlwaysSeesEveryChange(cols, rows) <==> cols * rows <= MAX_CELLS
  {
    if cols * rows > MAX_CELLS {
      var g := BlankGrid(cols, rows);
      var t := g.(cells := g.cells[MAX_CELLS := Cell("x", None, None, 0)]);
      var x, y := MAX_CELLS % cols, MAX_CELLS / cols;
      FirstHighCell(cols, rows);
      assert Index(t, x, y) == MAX_CELLS;
      assert Differs(t, Some(g), x, y) && !CellChanged(t, Some(g), x, y);
      assert !SeesEveryChange(t, Some(g));
    }
  }
}

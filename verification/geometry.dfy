/** Row-major grid geometry: the bounds test and the neighbour index of a move
    (src/boxworld_base.cpp, InBounds and IndexFromAction, with the offset table). */
module Geometry {
  import opened Definitions
  import Arith

  /** Column of a flat index. */
  function ColOf(cols: nat, idx: nat): (col: nat)
    requires 0 < cols
    ensures col < cols && col <= idx
  {
    idx % cols
  }

  /** Row of a flat index, computed as the source does, from the index minus its column. */
  function RowOf(cols: nat, idx: nat): (row: nat)
    requires 0 < cols
    ensures row == idx / cols
  {
    Arith.FlatOfDivMod(idx, cols);
    Arith.DivModOfFlat(idx / cols, cols, 0);
    (idx - idx % cols) / cols
  }

  /** Whether the cell one step from `idx` in direction `a` is still on the board. */
  predicate InBounds(rows: nat, cols: nat, idx: nat, a: Action)
    requires 0 < cols
  {
    var col := ColOf(cols, idx) + DCol(a);
    var row := RowOf(cols, idx) + DRow(a);
    0 <= col < cols && 0 <= row < rows
  }

  /** The flat index of the cell one step from `idx` in direction `a`. Only
      meaningful after `InBounds`. */
  function IndexFromAction(cols: nat, idx: nat, a: Action): (j: int)
    requires 0 < cols
    ensures j == idx + DCol(a) + cols * DRow(a)
  {
    assert cols * (RowOf(cols, idx) + DRow(a)) == cols * RowOf(cols, idx) + cols * DRow(a);
    cols * (RowOf(cols, idx) + DRow(a)) + (ColOf(cols, idx) + DCol(a))
  }

  /** The neighbour of a board cell in an in-bounds direction, as a board index. */
  function Neighbour(rows: nat, cols: nat, idx: nat, a: Action): (j: nat)
    requires 0 < cols && idx < rows * cols
    requires InBounds(rows, cols, idx, a)
    ensures j < rows * cols && j != idx
    ensures j == IndexFromAction(cols, idx, a) == idx + DCol(a) + cols * DRow(a)
  {
    NeighbourInGrid(rows, cols, idx, a);
    InBoundsNoWrap(rows, cols, idx, a);
    IndexFromAction(cols, idx, a) as nat
  }

  /** A flat index is its row times the width plus its column. */
  lemma RowColDecompose(rows: nat, cols: nat, idx: nat)
    requires 0 < cols && idx < rows * cols
    ensures idx == RowOf(cols, idx) * cols + ColOf(cols, idx)
    ensures ColOf(cols, idx) < cols && RowOf(cols, idx) < rows
  {
    Arith.FlatOfDivMod(idx, cols);
    assert RowOf(cols, idx) == idx / cols by {
      Arith.DivModOfFlat(idx / cols, cols, 0);
    }
    if RowOf(cols, idx) >= rows {
      Arith.MulMonotone(rows, RowOf(cols, idx), cols);
    }
  }

  /** The cell with the given row and column has them as its row and column. */
  lemma RowColOfFlat(cols: nat, row: nat, col: nat)
    requires col < cols
    ensures ColOf(cols, row * cols + col) == col
    ensures RowOf(cols, row * cols + col) == row
  {
    Arith.DivModOfFlat(row, cols, col);
    Arith.DivModOfFlat(row, cols, 0);
  }

  /** Bounds are checked per axis, so a move never wraps to another row: in
      flat terms Up needs a row above, Down a row below, Left a column to the
      left and Right a column to the right; the neighbour is then `idx - cols`,
      `idx + cols`, `idx - 1` or `idx + 1`. */
  lemma InBoundsNoWrap(rows: nat, cols: nat, idx: nat, a: Action)
    requires 0 < cols && idx < rows * cols
    ensures InBounds(rows, cols, idx, a) <==>
      match a
      case Up => cols <= idx
      case Down => idx + cols < rows * cols
      case Left => idx % cols != 0
      case Right => idx % cols + 1 < cols
    ensures IndexFromAction(cols, idx, a) == idx + DCol(a) + cols * DRow(a)
  {
    RowColDecompose(rows, cols, idx);
    var row, col := RowOf(cols, idx), ColOf(cols, idx);
    assert cols * (row + DRow(a)) == cols * row + cols * DRow(a);
    match a
    case Up => RowAbove(cols, row, col);
    case Down => RowBelow(rows, cols, row, col);
    case Left =>
    case Right =>
  }

  /** The cell at (row, col) has a row above it exactly when its index is at
      least one row's width. */
  lemma RowAbove(cols: nat, row: nat, col: nat)
    requires col < cols
    ensures 1 <= row <==> cols <= row * cols + col
  {
    if row >= 1 {
      Arith.MulMonotone(1, row, cols);
    }
  }

  /** The cell at (row, col) has a row below it exactly when its index plus
      one row's width is still on the board. */
  lemma RowBelow(rows: nat, cols: nat, row: nat, col: nat)
    requires col < cols && row < rows
    ensures row + 1 < rows <==> row * cols + col + cols < rows * cols
  {
    if row + 1 < rows {
      Arith.MulMonotone(row + 2, rows, cols);
    } else {
      assert (row + 1) * cols == row * cols + cols;
    }
  }

  /** An in-bounds move lands on a different board cell whose row and column are
      the agent's shifted by the action's offset. */
  lemma NeighbourInGrid(rows: nat, cols: nat, idx: nat, a: Action)
    requires 0 < cols && idx < rows * cols
    requires InBounds(rows, cols, idx, a)
    ensures 0 <= IndexFromAction(cols, idx, a) < rows * cols
    ensures IndexFromAction(cols, idx, a) != idx
    ensures ColOf(cols, IndexFromAction(cols, idx, a)) == ColOf(cols, idx) + DCol(a)
    ensures RowOf(cols, IndexFromAction(cols, idx, a)) == RowOf(cols, idx) + DRow(a)
  {
    var row: nat, col: nat := RowOf(cols, idx) + DRow(a), ColOf(cols, idx) + DCol(a);
    assert IndexFromAction(cols, idx, a) == row * cols + col by {
      assert cols * row == row * cols;
    }
    Arith.FlatBound(row, rows, col, cols);
    RowColOfFlat(cols, row, col);
    assert row * cols + col != idx by {
      RowColDecompose(rows, cols, idx);
      OffsetIsUnitStep(a);
    }
  }

  /** Moving and then moving back returns to the start. */
  lemma NeighbourRoundTrip(rows: nat, cols: nat, idx: nat, a: Action)
    requires 0 < cols && idx < rows * cols
    requires InBounds(rows, cols, idx, a)
    ensures var j := IndexFromAction(cols, idx, a);
      0 <= j && InBounds(rows, cols, j as nat, Opposite(a))
      && IndexFromAction(cols, j as nat, Opposite(a)) == idx
  {
    NeighbourInGrid(rows, cols, idx, a);
    RowColDecompose(rows, cols, idx);
    var j := IndexFromAction(cols, idx, a) as nat;
    var b := Opposite(a);
    assert ColOf(cols, j) + DCol(b) == ColOf(cols, idx);
    assert RowOf(cols, j) + DRow(b) == RowOf(cols, idx);
  }
}

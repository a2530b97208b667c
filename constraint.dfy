/** The constraint check `isValid` of sudoku.go: may byte `ch` go at
    (row, col)? */
module Constraint {
  import opened Board

  /** `ch` occurs somewhere in row `row`. */
  predicate InRow(g: Grid, row: Index, ch: Byte) {
    exists c: Index :: g[row][c] == ch
  }

  /** `ch` occurs somewhere in column `col`. */
  predicate InCol(g: Grid, col: Index, ch: Byte) {
    exists r: Index :: g[r][col] == ch
  }

  /** `ch` occurs somewhere in the 3x3 box that holds (row, col). */
  predicate InBox(g: Grid, row: Index, col: Index, ch: Byte) {
    exists r: Index, c: Index ::
      BoxStart(row) <= r < BoxStart(row) + 3 && BoxStart(col) <= c < BoxStart(col) + 3 && g[r][c] == ch
  }

  /** What `isValid` decides: `ch` is absent from the row, the column and the
      box of (row, col). The cell (row, col) itself is part of all three. */
  predicate Allowed(g: Grid, row: Index, col: Index, ch: Byte) {
    !InRow(g, row, ch) && !InCol(g, col, ch) && !InBox(g, row, col, ch)
  }

  /** The row/column/box scan says the same as "no cell sharing a unit with
      (row, col), nor the cell itself, holds `ch`". */
  lemma AllowedIffNoPeerHolds(g: Grid, row: Index, col: Index, ch: Byte)
    ensures Allowed(g, row, col, ch) <==>
      g[row][col] != ch && forall r: Index, c: Index :: Peers(row, col, r, c) ==> g[r][c] != ch
  {
    if Allowed(g, row, col, ch) {
      forall r: Index, c: Index | Peers(row, col, r, c) ensures g[r][c] != ch {
        if r != row && c != col {
          assert BoxStart(r) == BoxStart(row) && BoxStart(c) == BoxStart(col);
        }
      }
    }
    if g[row][col] != ch && forall r: Index, c: Index :: Peers(row, col, r, c) ==> g[r][c] != ch {
      forall c: Index ensures g[row][c] != ch {
        if c != col { assert Peers(row, col, row, c); }
      }
      forall r: Index ensures g[r][col] != ch {
        if r != row { assert Peers(row, col, r, col); }
      }
      forall r: Index, c: Index | BoxStart(row) <= r < BoxStart(row) + 3 && BoxStart(col) <= c < BoxStart(col) + 3
        ensures g[r][c] != ch
      {
        SameBox(row, r);
        SameBox(col, c);
        if (r, c) != (row, col) { assert Peers(row, col, r, c); }
      }
    }
  }

  /** Index `j` lies in the box band starting at `BoxStart(i)` exactly when
      the two share that band. */
  lemma SameBox(i: Index, j: Index)
    ensures BoxStart(i) <= j < BoxStart(i) + 3 <==> BoxStart(j) == BoxStart(i)
  {
  }

  /** `isValid(board, row, col, char)`: one pass over the row and the column,
      then a pass over the box; false as soon as `ch` is seen. The board is
      passed by value in the source; here it is read and never modified. */
  method IsValid(board: array2<Byte>, row: Index, col: Index, ch: Byte) returns (ok: bool)
    requires board.Length0 == 9 && board.Length1 == 9
    ensures ok <==> Allowed(Cells(board), row, col, ch)
  {
    ghost var g := Cells(board);
    for i := 0 to 9
      invariant forall c: Index :: c < i ==> g[row][c] != ch
      invariant forall r: Index :: r < i ==> g[r][col] != ch
    {
      if board[row, i] == ch || board[i, col] == ch {
        return false;
      }
    }
    var startRow := 3 * (row / 3);
    var startCol := 3 * (col / 3);
    for r := startRow to startRow + 3
      invariant forall r', c: Index :: startRow <= r' < r && startCol <= c < startCol + 3 ==> g[r'][c] != ch
    {
      for c := startCol to startCol + 3
        invariant forall c': Index :: startCol <= c' < c ==> g[r][c'] != ch
        invariant forall r', c': Index :: startRow <= r' < r && startCol <= c' < startCol + 3 ==> g[r'][c'] != ch
      {
        if board[r, c] == ch {
          return false;
        }
      }
    }
    return true;
  }
}

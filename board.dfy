/** The 9x9 Sudoku board of sudoku.go: cells hold the bytes '.' (empty) or
    '1'..'9'. The solver works on a mutable `array2<Byte>`; its specification
    works on the immutable snapshot `Grid`. */
module Board {

  /** A Go `byte`. */
  type Byte = b: int | 0 <= b < 256

  /** A row or column number of the board. */
  type Index = i: int | 0 <= i < 9

  /** The byte '.' that marks an empty cell. */
  const Dot: Byte := 46
  /** The bytes '1' and '9', the first and last digit. */
  const One: Byte := 49
  const Nine: Byte := 57

  predicate IsDigit(b: Byte) {
    One <= b <= Nine
  }

  /** A snapshot of the board, row by row. */
  type Grid = g: seq<seq<Byte>> | IsGrid(g) witness seq(9, _ => seq(9, _ => Dot))

  predicate IsGrid(g: seq<seq<Byte>>) {
    |g| == 9 && forall r :: 0 <= r < 9 ==> |g[r]| == 9
  }

  /** The grid `g` with cell (row, col) set to `v`. */
  function Put(g: Grid, row: Index, col: Index, v: Byte): Grid
  {
    var line: seq<Byte> := g[row][col := v];
    g[row := line]
  }

  /** `Put` writes the one cell and leaves every other cell as it was. */
  lemma PutCells(g: Grid, row: Index, col: Index, v: Byte)
    ensures Put(g, row, col, v)[row][col] == v
    ensures forall r: Index, c: Index :: (r, c) != (row, col) ==> Put(g, row, col, v)[r][c] == g[r][c]
  {
  }

  /** Two grids with the same cells are the same grid. */
  lemma GridsEqual(g: Grid, h: Grid)
    requires forall r: Index, c: Index :: g[r][c] == h[r][c]
    ensures g == h
  {
    forall r: Index ensures g[r] == h[r] {
      assert forall c: Index :: g[r][c] == h[r][c];
    }
  }

  /** The current contents of a 9x9 array as a grid. */
  ghost function Cells(board: array2<Byte>): (g: Grid)
    requires board.Length0 == 9 && board.Length1 == 9
    reads board
    ensures forall r: Index, c: Index :: g[r][c] == board[r, c]
  {
    seq(9, r requires 0 <= r < 9 reads board => seq(9, c requires 0 <= c < 9 reads board => board[r, c]))
  }

  /** Every cell is '.' or a digit: the only boards the program builds. */
  predicate WellFormed(g: Grid) {
    forall r: Index, c: Index :: g[r][c] == Dot || IsDigit(g[r][c])
  }

  /** No cell is '.'. */
  predicate Full(g: Grid) {
    forall r: Index, c: Index :: g[r][c] != Dot
  }

  /** The cells of the board that are '.'. */
  function EmptyCells(g: Grid): set<(int, int)> {
    set r: int, c: int | 0 <= r < 9 && 0 <= c < 9 && g[r][c] == Dot :: (r, c)
  }

  /** Filling an empty cell removes exactly that cell from the empty ones:
      the measure that makes the search terminate. */
  lemma FillShrinks(g: Grid, row: Index, col: Index, v: Byte)
    requires g[row][col] == Dot && v != Dot
    ensures EmptyCells(Put(g, row, col, v)) == EmptyCells(g) - {(row, col)}
    ensures EmptyCells(Put(g, row, col, v)) < EmptyCells(g)
  {
    var h := Put(g, row, col, v);
    PutCells(g, row, col, v);
    assert (row, col) in EmptyCells(g);
    forall p | p in EmptyCells(g) - {(row, col)} ensures p in EmptyCells(h) {
      var (r, c) := p;
      assert h[r][c] == g[r][c];
    }
  }

  /** The corner row (or column) of the 3x3 box holding row (or column) `i`,
      computed as `3 * (i / 3)`; the box lies inside the board. */
  function BoxStart(i: Index): (s: Index)
    ensures s % 3 == 0 && s <= i < s + 3 <= 9
  {
    3 * (i / 3)
  }

  /** Distinct cells that share a row, a column or a 3x3 box. */
  predicate Peers(r1: Index, c1: Index, r2: Index, c2: Index) {
    (r1, c1) != (r2, c2) &&
    (r1 == r2 || c1 == c2 || (BoxStart(r1) == BoxStart(r2) && BoxStart(c1) == BoxStart(c2)))
  }

  /** No digit is repeated in any row, column or box. */
  predicate Consistent(g: Grid) {
    forall r1: Index, c1: Index, r2: Index, c2: Index ::
      Peers(r1, c1, r2, c2) && g[r1][c1] != Dot ==> g[r1][c1] != g[r2][c2]
  }

  /** A solved Sudoku: every cell a digit, no digit repeated in a unit. */
  predicate Solved(g: Grid) {
    WellFormed(g) && Full(g) && Consistent(g)
  }

  /** `h` fills in `g`: every cell that is not '.' in `g` keeps its value. */
  predicate Extends(h: Grid, g: Grid) {
    forall r: Index, c: Index :: g[r][c] != Dot ==> h[r][c] == g[r][c]
  }
}

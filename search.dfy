/** The backtracking search of `solveAnimated` in sudoku.go, as a function on
    grid snapshots. It fixes the order of the search (first '.' cell in
    row-major order, digits '1'..'9' ascending) and the sequence of cell
    writes, which the display shows one by one. */
module SearchSpec {
  import opened Board
  import opened Constraint

  /** One write to the board (and to the display): `value` is a digit when a
      candidate is placed and '.' when it is taken back. */
  datatype Step = Step(row: Index, col: Index, value: Byte)

  /** The outcome of a search: whether it succeeded, the board it leaves
      behind and the writes it made, in order. */
  datatype Run = Run(solved: bool, final: Grid, steps: seq<Step>)

  /** The cell the scan stops at, or none when the board has no '.'. */
  datatype Found = None | Cell(row: Index, col: Index)

  /** Row-major order on cells: (r1, c1) comes strictly before (r2, c2). */
  predicate Before(r1: int, c1: int, r2: int, c2: int) {
    r1 < r2 || (r1 == r2 && c1 < c2)
  }

  /** The scan of the two outer loops: the first '.' cell at or after
      (row, col) in row-major order, if any. */
  function FindEmpty(g: Grid, row: int, col: int): Found
    requires 0 <= row <= 9 && 0 <= col <= 9
    decreases 9 - row, 9 - col
  {
    if row == 9 then None
    else if col == 9 then FindEmpty(g, row + 1, 0)
    else if g[row][col] == Dot then Cell(row, col)
    else FindEmpty(g, row, col + 1)
  }

  /** The scan finds nothing exactly when no cell from (row, col) on is '.';
      otherwise it finds a '.' cell from (row, col) on, and every cell
      between (row, col) and that one is not '.'. */
  lemma {:induction false} FindEmptyFirst(g: Grid, row: int, col: int)
    requires 0 <= row <= 9 && 0 <= col <= 9
    decreases 9 - row, 9 - col
    ensures FindEmpty(g, row, col).None? <==>
      forall r: Index, c: Index :: !Before(r, c, row, col) ==> g[r][c] != Dot
    ensures FindEmpty(g, row, col).Cell? ==>
      var p := FindEmpty(g, row, col);
      !Before(p.row, p.col, row, col) && g[p.row][p.col] == Dot &&
      forall r: Index, c: Index :: !Before(r, c, row, col) && Before(r, c, p.row, p.col) ==> g[r][c] != Dot
  {
    if row < 9 {
      if col == 9 {
        FindEmptyFirst(g, row + 1, 0);
      } else if g[row][col] != Dot {
        FindEmptyFirst(g, row, col + 1);
      }
    }
  }

  /** `solveAnimated` on the grid `g`. */
  function Search(g: Grid): Run
    decreases EmptyCells(g), 10
  {
    FindEmptyFirst(g, 0, 0);
    match FindEmpty(g, 0, 0)
    case None => Run(true, g, [])
    case Cell(row, col) => TryDigits(g, row, col, One)
  }

  /** The digit loop at the first '.' cell (row, col), from candidate `ch`
      on: place an allowed digit, search on; keep it if that succeeds, write
      '.' back and go on to the next digit if it fails. */
  function TryDigits(g: Grid, row: Index, col: Index, ch: int): Run
    requires g[row][col] == Dot && One <= ch <= Nine + 1
    decreases EmptyCells(g), Nine + 1 - ch
  {
    if ch > Nine then Run(false, g, [])
    else if !Allowed(g, row, col, ch) then TryDigits(g, row, col, ch + 1)
    else
      var placed := Put(g, row, col, ch);
      FillShrinks(g, row, col, ch);
      var sub := Search(placed);
      if sub.solved then Run(true, sub.final, [Step(row, col, ch)] + sub.steps)
      else
        var rest := TryDigits(g, row, col, ch + 1);
        Run(rest.solved, rest.final, [Step(row, col, ch)] + sub.steps + [Step(row, col, Dot)] + rest.steps)
  }

  /** The grid after the writes `steps`, made one by one from `g`. */
  function Replay(g: Grid, steps: seq<Step>): Grid
    decreases |steps|
  {
    if steps == [] then g
    else Replay(Put(g, steps[0].row, steps[0].col, steps[0].value), steps[1..])
  }

  /** Every write of `steps`, made in turn from `g`, places a digit that
      `isValid` allows on a '.' cell, or writes '.' back. */
  predicate Legal(g: Grid, steps: seq<Step>)
    decreases |steps|
  {
    steps == [] ||
    (var s := steps[0];
     (s.value == Dot || (IsDigit(s.value) && g[s.row][s.col] == Dot && Allowed(g, s.row, s.col, s.value))) &&
     Legal(Put(g, s.row, s.col, s.value), steps[1..]))
  }
}

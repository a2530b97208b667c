/** `solveAnimated` of sudoku.go: the in-place backtracking search over the
    shared board. */
module Solver {
  import opened Board
  import opened Constraint
  import opened SearchSpec
  import opened SearchFacts

  /** A bundle for `Solve`: what the search promises about one board, from
      the lemmas of `SearchFacts`. */
  lemma Facts(g: Grid)
    ensures !Search(g).solved ==> Search(g).final == g
    ensures Search(g).solved ==> Full(Search(g).final) && Extends(Search(g).final, g)
    ensures Replay(g, Search(g).steps) == Search(g).final
    ensures Legal(g, Search(g).steps)
    ensures WellFormed(g) && Consistent(g) && Search(g).solved ==> Solved(Search(g).final)
  {
    SearchRestoresOnFailure(g);
    SearchFillsBlanks(g);
    SearchReplays(g);
    SearchLegal(g);
    if WellFormed(g) && Consistent(g) {
      SearchSound(g);
    }
  }

  /** `solveAnimated`: scans the board row by row for the first '.'; tries
      the digits there (`Candidates`); returns true when no '.' is left.
      `steps` is the sequence of cell writes, which the source also shows on
      the display. */
  method Solve(board: array2<Byte>) returns (solved: bool, ghost steps: seq<Step>)
    requires board.Length0 == 9 && board.Length1 == 9
    modifies board
    decreases EmptyCells(Cells(board)), 2
    ensures Search(old(Cells(board))) == Run(solved, Cells(board), steps)
    ensures !solved ==> Cells(board) == old(Cells(board))
    ensures solved ==> Full(Cells(board)) && Extends(Cells(board), old(Cells(board)))
    ensures Replay(old(Cells(board)), steps) == Cells(board)
    ensures Legal(old(Cells(board)), steps)
    ensures WellFormed(old(Cells(board))) && Consistent(old(Cells(board))) && solved ==> Solved(Cells(board))
  {
    ghost var g := Cells(board);
    for row := 0 to 9
      invariant Cells(board) == g
      invariant FindEmpty(g, 0, 0) == FindEmpty(g, row, 0)
    {
      for col := 0 to 9
        invariant Cells(board) == g
        invariant FindEmpty(g, 0, 0) == FindEmpty(g, row, col)
      {
        if board[row, col] == Dot {
          SearchAt(g, row, col);
          solved, steps := Candidates(board, row, col);
          Facts(g);
          return;
        }
      }
    }
    solved, steps := true, [];
    Facts(g);
  }

  /** The digit loop of `solveAnimated` at the '.' cell (row, col): tries
      '1'..'9' in turn, places each digit `IsValid` allows and searches on;
      stops at the first success, and returns false when the digits run
      out. */
  method Candidates(board: array2<Byte>, row: Index, col: Index) returns (solved: bool, ghost steps: seq<Step>)
    requires board.Length0 == 9 && board.Length1 == 9 && board[row, col] == Dot
    modifies board
    decreases EmptyCells(Cells(board)), 1
    ensures TryDigits(old(Cells(board)), row, col, One) == Run(solved, Cells(board), steps)
  {
    ghost var g := Cells(board);
    steps := [];
    var ch: int := One;
    while ch <= Nine
      invariant One <= ch <= Nine + 1
      invariant Cells(board) == g
      invariant var rest := TryDigits(g, row, col, ch);
        TryDigits(g, row, col, One) == Run(rest.solved, rest.final, steps + rest.steps)
    {
      var ok := IsValid(board, row, col, ch);
      if !ok {
        TryDigitsReject(g, row, col, ch);
      } else {
        var done, sub := Place(board, row, col, ch);
        if done {
          SuccessEndsLoop(g, row, col, ch, steps);
          return true, steps + ([Step(row, col, ch)] + sub);
        }
        FailureContinuesLoop(g, row, col, ch, steps);
        steps := steps + ([Step(row, col, ch)] + sub + [Step(row, col, Dot)]);
      }
      ch := ch + 1;
    }
    solved := false;
  }

  /** The loop of `Candidates` after a candidate whose search succeeded:
      the writes so far, that candidate's write and its search's writes are
      all the writes of the loop. */
  lemma SuccessEndsLoop(g: Grid, row: Index, col: Index, ch: int, steps: seq<Step>)
    requires g[row][col] == Dot && One <= ch <= Nine && Allowed(g, row, col, ch)
    requires Search(Put(g, row, col, ch)).solved
    requires var rest := TryDigits(g, row, col, ch);
      TryDigits(g, row, col, One) == Run(rest.solved, rest.final, steps + rest.steps)
    ensures var sub := Search(Put(g, row, col, ch));
      TryDigits(g, row, col, One) == Run(true, sub.final, steps + ([Step(row, col, ch)] + sub.steps))
  {
    TryDigitsAfterSuccess(g, row, col, ch);
  }

  /** The loop invariant of `Candidates` carried past a candidate whose
      search failed and was taken back. */
  lemma FailureContinuesLoop(g: Grid, row: Index, col: Index, ch: int, steps: seq<Step>)
    requires g[row][col] == Dot && One <= ch <= Nine && Allowed(g, row, col, ch)
    requires !Search(Put(g, row, col, ch)).solved
    requires var rest := TryDigits(g, row, col, ch);
      TryDigits(g, row, col, One) == Run(rest.solved, rest.final, steps + rest.steps)
    ensures var rest := TryDigits(g, row, col, ch + 1);
      var tried := [Step(row, col, ch)] + Search(Put(g, row, col, ch)).steps + [Step(row, col, Dot)];
      TryDigits(g, row, col, One) == Run(rest.solved, rest.final, steps + tried + rest.steps)
  {
    var rest := TryDigits(g, row, col, ch + 1);
    var tried := [Step(row, col, ch)] + Search(Put(g, row, col, ch)).steps + [Step(row, col, Dot)];
    TryDigitsAfterFailure(g, row, col, ch);
    assert steps + (tried + rest.steps) == steps + tried + rest.steps;
  }

  /** One allowed candidate: writes `ch` at (row, col) and searches on; when
      that fails, writes '.' back. */
  method Place(board: array2<Byte>, row: Index, col: Index, ch: int) returns (done: bool, ghost sub: seq<Step>)
    requires board.Length0 == 9 && board.Length1 == 9 && board[row, col] == Dot
    requires One <= ch <= Nine
    modifies board
    decreases EmptyCells(Cells(board)), 0
    ensures var r := Search(Put(old(Cells(board)), row, col, ch));
      done == r.solved && sub == r.steps && Cells(board) == (if done then r.final else old(Cells(board)))
  {
    ghost var g := Cells(board);
    board[row, col] := ch;
    PutCells(g, row, col, ch);
    GridsEqual(Cells(board), Put(g, row, col, ch));
    FillShrinks(g, row, col, ch);
    done, sub := Solve(board);
    if !done {
      board[row, col] := Dot;
      GridsEqual(Cells(board), g);
    }
  }
}

/** What the search promises: undo on failure, a full board that keeps its
    clues on success, writes that replay to the final board, only legal
    placements, a valid solution when the clues agree, the fixed search
    order, and that it misses no solution. */
module SearchFacts {
  import opened Board
  import opened Constraint
  import opened SearchSpec

  /** When the search fails, the board is exactly as it was. */
  lemma {:induction false} SearchRestoresOnFailure(g: Grid)
    ensures !Search(g).solved ==> Search(g).final == g
    decreases EmptyCells(g), 10
  {
    FindEmptyFirst(g, 0, 0);
    match FindEmpty(g, 0, 0)
    case None =>
    case Cell(row, col) => TryDigitsRestoresOnFailure(g, row, col, One);
  }

  lemma {:induction false} TryDigitsRestoresOnFailure(g: Grid, row: Index, col: Index, ch: int)
    requires g[row][col] == Dot && One <= ch <= Nine + 1
    ensures !TryDigits(g, row, col, ch).solved ==> TryDigits(g, row, col, ch).final == g
    decreases EmptyCells(g), Nine + 1 - ch
  {
    if ch <= Nine {
      FillShrinks(g, row, col, ch);
      TryDigitsRestoresOnFailure(g, row, col, ch + 1);
    }
  }

  /** When the search succeeds, no cell is '.' and every cell that was not
      '.' at the start is unchanged. */
  lemma {:induction false} SearchFillsBlanks(g: Grid)
    ensures Search(g).solved ==> Full(Search(g).final) && Extends(Search(g).final, g)
    decreases EmptyCells(g), 10
  {
    FindEmptyFirst(g, 0, 0);
    match FindEmpty(g, 0, 0)
    case None =>
    case Cell(row, col) => TryDigitsFillsBlanks(g, row, col, One);
  }

  lemma {:induction false} TryDigitsFillsBlanks(g: Grid, row: Index, col: Index, ch: int)
    requires g[row][col] == Dot && One <= ch <= Nine + 1
    ensures TryDigits(g, row, col, ch).solved ==>
      Full(TryDigits(g, row, col, ch).final) && Extends(TryDigits(g, row, col, ch).final, g)
    decreases EmptyCells(g), Nine + 1 - ch
  {
    if ch <= Nine {
      if Allowed(g, row, col, ch) {
        var placed := Put(g, row, col, ch);
        FillShrinks(g, row, col, ch);
        SearchFillsBlanks(placed);
      }
      TryDigitsFillsBlanks(g, row, col, ch + 1);
    }
  }

  /** Replaying writes one after the other. */
  lemma {:induction false} ReplayAppend(g: Grid, a: seq<Step>, b: seq<Step>)
    ensures Replay(g, a + b) == Replay(Replay(g, a), b)
    decreases |a|
  {
    if a == [] {
      assert a + b == b;
    } else {
      var h := Put(g, a[0].row, a[0].col, a[0].value);
      assert (a + b)[0] == a[0] && (a + b)[1..] == a[1..] + b;
      ReplayAppend(h, a[1..], b);
    }
  }

  /** The writes the search makes, replayed in order on the starting board,
      give the board it leaves behind. */
  lemma {:induction false} SearchReplays(g: Grid)
    ensures Replay(g, Search(g).steps) == Search(g).final
    decreases EmptyCells(g), 10, 0
  {
    FindEmptyFirst(g, 0, 0);
    match FindEmpty(g, 0, 0)
    case None =>
    case Cell(row, col) => TryDigitsReplays(g, row, col, One);
  }

  lemma {:induction false} TryDigitsReplays(g: Grid, row: Index, col: Index, ch: int)
    requires g[row][col] == Dot && One <= ch <= Nine + 1
    ensures Replay(g, TryDigits(g, row, col, ch).steps) == TryDigits(g, row, col, ch).final
    decreases EmptyCells(g), Nine + 1 - ch, 4
  {
    if ch <= Nine {
      if !Allowed(g, row, col, ch) {
        TryDigitsReplays(g, row, col, ch + 1);
      } else if Search(Put(g, row, col, ch)).solved {
        PlacedReplays(g, row, col, ch);
      } else {
        FailedCandidateReplays(g, row, col, ch);
      }
    }
  }

  /** Replaying a single write. */
  lemma ReplayOne(g: Grid, s: Step)
    ensures Replay(g, [s]) == Put(g, s.row, s.col, s.value)
  {
    assert [s][1..] == [];
  }

  /** A candidate kept after a successful search: its write followed by the
      writes of that search replay to where the search ends. */
  lemma {:induction false} PlacedReplays(g: Grid, row: Index, col: Index, ch: Byte)
    requires g[row][col] == Dot && ch != Dot
    ensures Replay(g, [Step(row, col, ch)] + Search(Put(g, row, col, ch)).steps) == Search(Put(g, row, col, ch)).final
    decreases EmptyCells(g), Nine + 1 - ch, 0
  {
    var placed := Put(g, row, col, ch);
    FillShrinks(g, row, col, ch);
    SearchReplays(placed);
    ReplayOne(g, Step(row, col, ch));
    ReplayAppend(g, [Step(row, col, ch)], Search(placed).steps);
  }

  /** A candidate that is placed, searched on without success and taken back
      leaves the board as it was. */
  lemma {:induction false} UndoReplays(g: Grid, row: Index, col: Index, ch: Byte)
    requires g[row][col] == Dot && ch != Dot
    requires !Search(Put(g, row, col, ch)).solved
    ensures Replay(g, [Step(row, col, ch)] + Search(Put(g, row, col, ch)).steps + [Step(row, col, Dot)]) == g
    decreases EmptyCells(g), Nine + 1 - ch, 1
  {
    var placed := Put(g, row, col, ch);
    var tried := [Step(row, col, ch)] + Search(placed).steps;
    PlacedReplays(g, row, col, ch);
    SearchRestoresOnFailure(placed);
    ReplayAppend(g, tried, [Step(row, col, Dot)]);
    ReplayOne(placed, Step(row, col, Dot));
    PutCells(placed, row, col, Dot);
    PutCells(g, row, col, ch);
    GridsEqual(Put(placed, row, col, Dot), g);
  }

  /** The search at the first '.' cell runs the digit loop from '1'. */
  lemma SearchAt(g: Grid, row: Index, col: Index)
    requires FindEmpty(g, 0, 0) == Cell(row, col)
    ensures g[row][col] == Dot
    ensures Search(g) == TryDigits(g, row, col, One)
  {
    FindEmptyFirst(g, 0, 0);
  }

  /** A candidate `isValid` rejects is skipped without a write. */
  lemma TryDigitsReject(g: Grid, row: Index, col: Index, ch: int)
    requires g[row][col] == Dot && One <= ch <= Nine && !Allowed(g, row, col, ch)
    ensures TryDigits(g, row, col, ch) == TryDigits(g, row, col, ch + 1)
  {
  }

  /** A candidate whose search succeeds is kept, and the loop ends. */
  lemma TryDigitsAfterSuccess(g: Grid, row: Index, col: Index, ch: int)
    requires g[row][col] == Dot && One <= ch <= Nine && Allowed(g, row, col, ch)
    requires Search(Put(g, row, col, ch)).solved
    ensures TryDigits(g, row, col, ch) ==
      Run(true, Search(Put(g, row, col, ch)).final, [Step(row, col, ch)] + Search(Put(g, row, col, ch)).steps)
  {
  }

  /** The digit loop past a candidate that was allowed, placed and searched
      on without success: that candidate's write, the writes of the failed
      search, the write of '.' back, then the later candidates. */
  lemma TryDigitsAfterFailure(g: Grid, row: Index, col: Index, ch: int)
    requires g[row][col] == Dot && One <= ch <= Nine && Allowed(g, row, col, ch)
    requires !Search(Put(g, row, col, ch)).solved
    ensures var rest := TryDigits(g, row, col, ch + 1);
      TryDigits(g, row, col, ch) ==
      Run(rest.solved, rest.final, [Step(row, col, ch)] + Search(Put(g, row, col, ch)).steps + [Step(row, col, Dot)] + rest.steps)
  {
  }

  /** Writes that leave the grid as it was can be skipped when replaying. */
  lemma ReplaySkip(g: Grid, a: seq<Step>, b: seq<Step>)
    requires Replay(g, a) == g
    ensures Replay(g, a + b) == Replay(g, b)
  {
    ReplayAppend(g, a, b);
  }

  /** A candidate that failed and was taken back changes neither the outcome
      of the digit loop nor the grid its writes replay to. */
  lemma {:induction false} FailedCandidateSkips(g: Grid, row: Index, col: Index, ch: int)
    requires g[row][col] == Dot && One <= ch <= Nine && Allowed(g, row, col, ch)
    requires !Search(Put(g, row, col, ch)).solved
    ensures TryDigits(g, row, col, ch).solved == TryDigits(g, row, col, ch + 1).solved
    ensures TryDigits(g, row, col, ch).final == TryDigits(g, row, col, ch + 1).final
    ensures Replay(g, TryDigits(g, row, col, ch).steps) == Replay(g, TryDigits(g, row, col, ch + 1).steps)
    decreases EmptyCells(g), Nine + 1 - ch, 2
  {
    var tried := [Step(row, col, ch)] + Search(Put(g, row, col, ch)).steps + [Step(row, col, Dot)];
    TryDigitsAfterFailure(g, row, col, ch);
    UndoReplays(g, row, col, ch);
    ReplaySkip(g, tried, TryDigits(g, row, col, ch + 1).steps);
  }

  /** After a candidate that failed and was taken back, the later
      candidates' writes replay from the original board. */
  lemma {:induction false} FailedCandidateReplays(g: Grid, row: Index, col: Index, ch: int)
    requires g[row][col] == Dot && One <= ch <= Nine && Allowed(g, row, col, ch)
    requires !Search(Put(g, row, col, ch)).solved
    ensures Replay(g, TryDigits(g, row, col, ch).steps) == TryDigits(g, row, col, ch).final
    decreases EmptyCells(g), Nine + 1 - ch, 3
  {
    FailedCandidateSkips(g, row, col, ch);
    TryDigitsReplays(g, row, col, ch + 1);
  }

  /** Appending legal writes to legal writes. */
  lemma {:induction false} LegalAppend(g: Grid, a: seq<Step>, b: seq<Step>)
    requires Legal(g, a) && Legal(Replay(g, a), b)
    ensures Legal(g, a + b)
    decreases |a|
  {
    if a == [] {
      assert a + b == b;
    } else {
      var h := Put(g, a[0].row, a[0].col, a[0].value);
      assert (a + b)[0] == a[0] && (a + b)[1..] == a[1..] + b;
      LegalAppend(h, a[1..], b);
    }
  }

  /** Every digit the search writes is one `isValid` allowed, on a cell that
      was '.' at that moment; every other write puts '.' back. */
  lemma {:induction false} SearchLegal(g: Grid)
    ensures Legal(g, Search(g).steps)
    decreases EmptyCells(g), 10, 0
  {
    FindEmptyFirst(g, 0, 0);
    match FindEmpty(g, 0, 0)
    case None =>
    case Cell(row, col) => TryDigitsLegal(g, row, col, One);
  }

  lemma {:induction false} TryDigitsLegal(g: Grid, row: Index, col: Index, ch: int)
    requires g[row][col] == Dot && One <= ch <= Nine + 1
    ensures Legal(g, TryDigits(g, row, col, ch).steps)
    decreases EmptyCells(g), Nine + 1 - ch, 4
  {
    if ch <= Nine {
      if !Allowed(g, row, col, ch) {
        TryDigitsLegal(g, row, col, ch + 1);
      } else if Search(Put(g, row, col, ch)).solved {
        PlacedLegal(g, row, col, ch);
      } else {
        FailedCandidateLegal(g, row, col, ch);
      }
    }
  }

  /** Placing an allowed digit and then searching on makes only legal
      writes. */
  lemma {:induction false} PlacedLegal(g: Grid, row: Index, col: Index, ch: int)
    requires g[row][col] == Dot && One <= ch <= Nine && Allowed(g, row, col, ch)
    ensures Legal(g, [Step(row, col, ch)] + Search(Put(g, row, col, ch)).steps)
    decreases EmptyCells(g), Nine + 1 - ch, 0
  {
    var placed := Put(g, row, col, ch);
    FillShrinks(g, row, col, ch);
    SearchLegal(placed);
    assert [Step(row, col, ch)][1..] == [];
    ReplayOne(g, Step(row, col, ch));
    LegalAppend(g, [Step(row, col, ch)], Search(placed).steps);
  }

  /** Writing '.' back is always a legal write. */
  lemma LegalUndo(g: Grid, row: Index, col: Index)
    ensures Legal(g, [Step(row, col, Dot)])
  {
    assert [Step(row, col, Dot)][1..] == [];
  }

  /** A candidate that failed and was taken back makes only legal writes,
      and leaves the board as it was for the later candidates. */
  lemma {:induction false} FailedCandidateLegalPrefix(g: Grid, row: Index, col: Index, ch: int)
    requires g[row][col] == Dot && One <= ch <= Nine && Allowed(g, row, col, ch)
    requires !Search(Put(g, row, col, ch)).solved
    ensures Legal(g, TryDigits(g, row, col, ch + 1).steps) ==> Legal(g, TryDigits(g, row, col, ch).steps)
    decreases EmptyCells(g), Nine + 1 - ch, 2
  {
    var placed := Put(g, row, col, ch);
    var tried := [Step(row, col, ch)] + Search(placed).steps;
    var rest := TryDigits(g, row, col, ch + 1);
    TryDigitsAfterFailure(g, row, col, ch);
    PlacedLegal(g, row, col, ch);
    PlacedReplays(g, row, col, ch);
    LegalUndo(Search(placed).final, row, col);
    LegalAppend(g, tried, [Step(row, col, Dot)]);
    UndoReplays(g, row, col, ch);
    if Legal(g, rest.steps) {
      LegalAppend(g, tried + [Step(row, col, Dot)], rest.steps);
    }
  }

  /** After a candidate that failed and was taken back, the later
      candidates' writes are legal from the original board. */
  lemma {:induction false} FailedCandidateLegal(g: Grid, row: Index, col: Index, ch: int)
    requires g[row][col] == Dot && One <= ch <= Nine && Allowed(g, row, col, ch)
    requires !Search(Put(g, row, col, ch)).solved
    ensures Legal(g, TryDigits(g, row, col, ch).steps)
    decreases EmptyCells(g), Nine + 1 - ch, 3
  {
    FailedCandidateLegalPrefix(g, row, col, ch);
    TryDigitsLegal(g, row, col, ch + 1);
  }

  /** Every write the search makes is to a cell that was '.' when the search
      started: the clues are never written. */
  lemma {:induction false} SearchWritesOnlyBlanks(g: Grid)
    ensures forall i :: 0 <= i < |Search(g).steps| ==>
      g[Search(g).steps[i].row][Search(g).steps[i].col] == Dot
    decreases EmptyCells(g), 10
  {
    FindEmptyFirst(g, 0, 0);
    match FindEmpty(g, 0, 0)
    case None =>
    case Cell(row, col) => TryDigitsWritesOnlyBlanks(g, row, col, One);
  }

  lemma {:induction false} TryDigitsWritesOnlyBlanks(g: Grid, row: Index, col: Index, ch: int)
    requires g[row][col] == Dot && One <= ch <= Nine + 1
    ensures forall i :: 0 <= i < |TryDigits(g, row, col, ch).steps| ==>
      g[TryDigits(g, row, col, ch).steps[i].row][TryDigits(g, row, col, ch).steps[i].col] == Dot
    decreases EmptyCells(g), Nine + 1 - ch
  {
    if ch <= Nine {
      if !Allowed(g, row, col, ch) {
        TryDigitsWritesOnlyBlanks(g, row, col, ch + 1);
      } else {
        var placed := Put(g, row, col, ch);
        FillShrinks(g, row, col, ch);
        SearchWritesOnlyBlanks(placed);
        TryDigitsWritesOnlyBlanks(g, row, col, ch + 1);
      }
    }
  }

  /** One legal write keeps a board consistent and well formed. */
  lemma LegalStepKeepsConsistent(g: Grid, s: Step)
    requires Consistent(g) && WellFormed(g)
    requires s.value == Dot || (IsDigit(s.value) && g[s.row][s.col] == Dot && Allowed(g, s.row, s.col, s.value))
    ensures Consistent(Put(g, s.row, s.col, s.value)) && WellFormed(Put(g, s.row, s.col, s.value))
  {
    var h := Put(g, s.row, s.col, s.value);
    if s.value != Dot {
      AllowedIffNoPeerHolds(g, s.row, s.col, s.value);
      forall r1: Index, c1: Index, r2: Index, c2: Index | Peers(r1, c1, r2, c2) && h[r1][c1] != Dot
        ensures h[r1][c1] != h[r2][c2]
      {
        if (r2, c2) == (s.row, s.col) {
          assert Peers(s.row, s.col, r1, c1);
        }
      }
    }
  }

  /** Legal writes keep a consistent, well-formed board consistent and well
      formed: a placement never repeats a digit in a unit. */
  lemma {:induction false} LegalKeepsConsistent(g: Grid, steps: seq<Step>)
    requires Consistent(g) && WellFormed(g) && Legal(g, steps)
    ensures Consistent(Replay(g, steps)) && WellFormed(Replay(g, steps))
    decreases |steps|
  {
    if steps != [] {
      LegalStepKeepsConsistent(g, steps[0]);
      LegalKeepsConsistent(Put(g, steps[0].row, steps[0].col, steps[0].value), steps[1..]);
    }
  }

  /** If the clues are digits that do not conflict, a successful search
      leaves a solved Sudoku that keeps every clue. */
  lemma SearchSound(g: Grid)
    requires WellFormed(g) && Consistent(g)
    ensures Search(g).solved ==> Solved(Search(g).final) && Extends(Search(g).final, g)
  {
    SearchLegal(g);
    SearchReplays(g);
    SearchFillsBlanks(g);
    LegalKeepsConsistent(g, Search(g).steps);
  }

  /** The search misses no solution: if some solved Sudoku keeps all the
      clues of `g`, the search succeeds. */
  lemma {:induction false} SearchComplete(g: Grid, h: Grid)
    requires Solved(h) && Extends(h, g)
    ensures Search(g).solved
    decreases EmptyCells(g), 10
  {
    FindEmptyFirst(g, 0, 0);
    match FindEmpty(g, 0, 0)
    case None =>
    case Cell(row, col) => TryDigitsComplete(g, h, row, col, One);
  }

  lemma {:induction false} TryDigitsComplete(g: Grid, h: Grid, row: Index, col: Index, ch: int)
    requires Solved(h) && Extends(h, g)
    requires g[row][col] == Dot && One <= ch <= h[row][col]
    ensures TryDigits(g, row, col, ch).solved
    decreases EmptyCells(g), Nine + 1 - ch
  {
    FillShrinks(g, row, col, ch);
    if ch == h[row][col] {
      CompletionDigitAllowed(g, h, row, col);
      PutCells(g, row, col, ch);
      SearchComplete(Put(g, row, col, ch), h);
    } else {
      TryDigitsComplete(g, h, row, col, ch + 1);
    }
  }

  /** The digit a solution puts on a '.' cell passes `isValid` there. */
  lemma CompletionDigitAllowed(g: Grid, h: Grid, row: Index, col: Index)
    requires Solved(h) && Extends(h, g) && g[row][col] == Dot
    ensures Allowed(g, row, col, h[row][col])
  {
    var d := h[row][col];
    forall r: Index, c: Index | Peers(row, col, r, c) ensures g[r][c] != d {
      assert h[row][col] != h[r][c];
    }
    AllowedIffNoPeerHolds(g, row, col, d);
  }

  /** Search order: candidates `ch` up to `d` that `isValid` rejects are
      skipped without a write. */
  lemma {:induction false} TryDigitsSkips(g: Grid, row: Index, col: Index, ch: int, d: int)
    requires g[row][col] == Dot && One <= ch <= d <= Nine + 1
    requires forall e :: ch <= e < d ==> !Allowed(g, row, col, e)
    ensures TryDigits(g, row, col, ch) == TryDigits(g, row, col, d)
    decreases d - ch
  {
    if ch < d {
      TryDigitsSkips(g, row, col, ch + 1, d);
    }
  }

  /** Search order: the first write of the search is the smallest digit
      `isValid` allows, at the first '.' cell in row-major order; when that
      cell allows no digit, the search fails at once without a write. */
  lemma SearchFirstStep(g: Grid, row: Index, col: Index)
    requires g[row][col] == Dot
    requires forall r: Index, c: Index :: Before(r, c, row, col) ==> g[r][c] != Dot
    ensures (forall d :: One <= d <= Nine ==> !Allowed(g, row, col, d)) ==> Search(g) == Run(false, g, [])
    ensures forall d :: (One <= d <= Nine && Allowed(g, row, col, d) &&
      (forall e :: One <= e < d ==> !Allowed(g, row, col, e))) ==>
        Search(g).steps != [] && Search(g).steps[0] == Step(row, col, d)
  {
    FindEmptyFirst(g, 0, 0);
    var p := FindEmpty(g, 0, 0);
    assert p.Cell?;
    assert !Before(p.row, p.col, row, col) && !Before(row, col, p.row, p.col);
    if forall d :: One <= d <= Nine ==> !Allowed(g, row, col, d) {
      TryDigitsSkips(g, row, col, One, Nine + 1);
    }
    forall d | One <= d <= Nine && Allowed(g, row, col, d) && (forall e :: One <= e < d ==> !Allowed(g, row, col, e))
      ensures Search(g).steps != [] && Search(g).steps[0] == Step(row, col, d)
    {
      TryDigitsSkips(g, row, col, One, d);
    }
  }

  /** On a board with no '.', the search succeeds at once, writes nothing
      and changes nothing: solving a solved board again is a no-op. */
  lemma SearchFullBoard(g: Grid)
    requires Full(g)
    ensures Search(g) == Run(true, g, [])
  {
    FindEmptyFirst(g, 0, 0);
  }
}

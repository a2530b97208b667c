# Sudoku backtracking solver — a verified model

This project models the solving core of `sudoku.go`, a small Sudoku program:

- `isValid` is the constraint check. It reports whether a digit may go at a
  cell. It scans the cell's row and column in one loop, then the 3x3 box.
- `solveAnimated` is the depth-first backtracking search. It changes the 9x9
  byte board in place. It looks for the first `'.'` cell in row-major order
  and tries `'1'`..`'9'` there in ascending order. It places each digit that
  `isValid` allows and recurses. A successful recursion keeps the digit and
  ends the search. A failed one writes `'.'` back and moves to the next
  digit. The function returns false when that cell's digits run out, and
  true when no `'.'` is left.

The board is an `array2<Byte>`, where `Byte` is the integers 0..255
(`'.'` = 46, `'1'..'9'` = 49..57). `Grid` is an immutable 9x9 snapshot
(`Board.Cells`), and the specifications are written over it.

The search is specified by the pure, mutually recursive functions
`SearchSpec.Search` and `SearchSpec.TryDigits`. They return a `Run`: the
outcome, the final grid, and the sequence of cell writes (`Step`s) in the
order the program makes them. The program shows every board write on its
display (the text writes at sudoku.go:161 and 168). The `steps` of a run are
that event trace, kept as ghost data.

`Solver.Solve` is the in-place method. It is proved equal to
`Search(old grid)`. It is split into three mutually recursive methods that
follow the source's nesting:

- `Solve` holds the row/column scan.
- `Candidates` holds the digit loop.
- `Place` makes one placement, the recursive call and the undo.

The lemmas in `SearchFacts` prove these properties of the specification:

- the board is restored on failure;
- on success the board is full and keeps its clues;
- the trace replays to the final board;
- every written digit was allowed at that moment;
- consistent clues give a valid solution;
- the search misses no solution (completeness);
- the search order is fixed;
- a full board needs no work.

Termination is proved with the set of `'.'` cells as the measure. Each
placement removes exactly one cell from that set (`Board.FillShrinks`).

`isValid` also reads the target cell itself: the row/column test at
sudoku.go:182 does so when `i == col` (and when `i == row`), and so does the
box test at sudoku.go:190. So `Constraint.Allowed` includes that cell, and
`Constraint.AllowedIffNoPeerHolds` separates it from its peers. The search
only calls it on a '.' cell, so this changes no outcome.

## Model

| member | source | states |
|---|---|---|
| Constraint.IsValid | sudoku.go:180-196 | Returns true exactly when `ch` appears nowhere in the row, nowhere in the column and nowhere in the 3x3 box of (row, col). It has no `modifies` clause, so it cannot change the board (the source passes the board by value). |
| Constraint.Allowed | sudoku.go:180-196 | Defines what `isValid` decides, as a pure predicate: `ch` occurs nowhere in row `row` (`InRow`), nowhere in column `col` (`InCol`) and nowhere in the box with corner `BoxStart(row), BoxStart(col)` (`InBox`). |
| Constraint.AllowedIffNoPeerHolds | sudoku.go:181-194 | The row/column/box scan agrees with an independent definition. `ch` passes exactly when neither the cell itself nor any cell sharing a row, column or box with it holds `ch`. |
| Board.BoxStart | sudoku.go:186-187 | The box corner `3*(i/3)` is a multiple of 3. The box `[s, s+3)` contains `i` and lies inside 0..8. |
| Board.PutCells | sudoku.go:160 | Writing one cell sets that cell and leaves every other cell as it was. |
| Board.FillShrinks | sudoku.go:157-164 | Writing a non-'.' byte into a '.' cell removes exactly that cell from the set of '.' cells. This strictly shrinks the termination measure of the recursion. |
| SearchSpec.FindEmpty | sudoku.go:155-157 | Defines the scan of the two outer loops: the first '.' cell at or after (row, col) in row-major order, or none. Its meaning is proved in `FindEmptyFirst`. |
| SearchSpec.Search | sudoku.go:154-178 | Defines `solveAnimated` on a grid snapshot: with no '.' cell, success with no write; otherwise the digit loop at the first '.' cell. Returns the outcome, the final grid and the ordered writes. Its properties are the `SearchFacts` lemmas, and `Solver.Solve` is proved equal to it. |
| SearchSpec.TryDigits | sudoku.go:158-173 | Defines the digit loop from candidate `ch` on. A rejected digit is skipped. An allowed digit is written and the search recurses: success keeps the digit, failure writes '.' back and moves on. Past '9' it fails with the grid as it was. `Solver.Candidates` is proved equal to it from '1'. |
| SearchSpec.FindEmptyFirst | sudoku.go:155-157 | The row-major scan finds nothing exactly when no cell from the start point on is '.'. Otherwise it finds a '.' cell, and every cell scanned before it is not '.'. |
| SearchFacts.SearchRestoresOnFailure | sudoku.go:158-173 | When the search fails, the final board equals the starting board. |
| SearchFacts.TryDigitsRestoresOnFailure | sudoku.go:158-173 | When the digit loop at a '.' cell fails, it leaves the board as it found it. |
| SearchFacts.SearchFillsBlanks | sudoku.go:155-177 | When the search succeeds, no cell is '.', and every cell that was not '.' at the start keeps its value. |
| SearchFacts.TryDigitsFillsBlanks | sudoku.go:158-166 | The same for the digit loop: success leaves a full board that keeps every non-'.' cell. |
| SearchFacts.ReplayAppend | sudoku.go:160-168 | Replaying two sequences of writes one after the other is the same as replaying their concatenation. |
| SearchFacts.SearchReplays | sudoku.go:160-168 | Replaying the search's trace of writes, in order, on the starting board gives exactly the board the search leaves behind. |
| SearchFacts.TryDigitsReplays | sudoku.go:158-173 | The same for the digit loop from any candidate on. |
| SearchFacts.PlacedReplays | sudoku.go:160-164 | A placement followed by the writes of the recursive search replays to the board that search ends with. |
| SearchFacts.UndoReplays | sudoku.go:160-167 | A placement whose recursion failed, followed by the write of '.', replays to the board as it was before the placement. |
| SearchFacts.FailedCandidateSkips | sudoku.go:159-172 | A candidate that failed and was taken back changes neither the outcome nor the final board of the digit loop. It also replays to the same board as the later candidates alone. |
| SearchFacts.FailedCandidateReplays | sudoku.go:159-172 | After a failed, undone candidate, the digit loop's writes still replay to its final board. |
| SearchFacts.LegalAppend | sudoku.go:160-167 | Legal writes followed by writes that are legal from the resulting board are legal as a whole. |
| SearchFacts.SearchLegal | sudoku.go:158-167 | Each write of the search either puts a digit '1'..'9' that `isValid` allowed at that moment on a cell that was '.' at that moment, or writes '.' back. |
| SearchFacts.TryDigitsLegal | sudoku.go:158-173 | The same for the digit loop from any candidate on. |
| SearchFacts.PlacedLegal | sudoku.go:159-164 | An allowed placement followed by the recursive search's writes is legal. |
| SearchFacts.LegalUndo | sudoku.go:167 | Writing '.' back is always a legal write. |
| SearchFacts.FailedCandidateLegalPrefix | sudoku.go:159-172 | A failed, undone candidate makes only legal writes and hands an unchanged board to the later candidates. |
| SearchFacts.FailedCandidateLegal | sudoku.go:159-172 | After a failed, undone candidate, all the digit loop's writes are legal. |
| SearchFacts.SearchWritesOnlyBlanks | sudoku.go:157-167 | Every write of the search is to a cell that was '.' when the search started, so clues are never overwritten. |
| SearchFacts.TryDigitsWritesOnlyBlanks | sudoku.go:158-167 | The same for the digit loop. |
| SearchFacts.LegalStepKeepsConsistent | sudoku.go:159-160 | One legal write keeps a well-formed board with no repeated digit in a unit well formed and without repeats. |
| SearchFacts.LegalKeepsConsistent | sudoku.go:159-167 | Any sequence of legal writes keeps a well-formed, consistent board well formed and consistent. |
| SearchFacts.SearchSound | sudoku.go:154-178 | If the clues are digits and do not conflict, a successful search leaves a solved Sudoku that keeps every clue. |
| SearchFacts.SearchComplete | sudoku.go:154-178 | If some solved Sudoku keeps all the clues of the board, the search succeeds: it misses no solution. |
| SearchFacts.TryDigitsComplete | sudoku.go:158-173 | The digit loop reaches the solution's digit for the cell, or succeeds earlier. |
| SearchFacts.CompletionDigitAllowed | sudoku.go:159 | The digit a solution puts on a '.' cell passes `isValid` there. |
| SearchFacts.TryDigitsSkips | sudoku.go:158-159 | Candidates rejected by `isValid` are skipped without a write: the loop from the first of them equals the loop from the next allowed digit. |
| SearchFacts.SearchFirstStep | sudoku.go:155-173 | Fixed search order. The first write is the smallest allowed digit at the first '.' cell in row-major order. If that cell allows no digit, the search fails at once without writing anything and without trying any later cell. |
| SearchFacts.SearchFullBoard | sudoku.go:155-177 | On a board with no '.', the search succeeds at once, writes nothing and leaves the board unchanged. |
| Solver.Facts | sudoku.go:158-177 | A bundle of the `SearchFacts` results for one grid, for `Solve`'s use: restore on failure, fill and keep clues on success, replay, legality, and soundness for consistent digit clues. |
| Solver.Solve | sudoku.go:154-178 | The in-place search returns exactly what `Search` returns on the entry board, leaves exactly its final board, and its ghost trace is `Search`'s trace. On false the board is as on entry. On true no cell is '.' and the clues are kept. The trace replays to the final board, and every write is legal. Consistent digit clues plus true give a solved Sudoku. Termination is proved by the shrinking set of '.' cells. |
| Solver.Candidates | sudoku.go:158-173 | The digit loop at a '.' cell tries '1'..'9' in ascending order. It stops at the first success and equals `TryDigits` from '1'. |
| Solver.Place | sudoku.go:160-171 | One allowed candidate: write it, search on, and write '.' back on failure. The outcome and trace are those of `Search` on the grid with the digit placed, and on failure the board is as before. |

## Left out

- `main` (sudoku.go:31-152) is not part of this model: the window, layout, border arithmetic, text centring and buttons are UI code calling a library that is not shown.
- The goroutine started by the Solve button and the Reset handler (sudoku.go:127-143) are not modelled. They are concurrency and UI wiring. The model assumes the search owns the board for the whole call.
- The `texts` and `w` parameters of `solveAnimated` and the `Refresh` and `time.Sleep` calls (sudoku.go:162-163, 169-170) are left out. The display text writes are kept only as the ghost `steps` trace. A write of `'.'` in the trace stands for the display's write of the empty string.
- `ifThenElseInt` (sudoku.go:199-204) only computes border widths for the UI.
- Malformed boards are not validated, because the source does not check them. `Solve` and `IsValid` accept any bytes, as the source does. `WellFormed` (every cell '.' or a digit) and `Consistent` (no repeated digit in a unit) appear only as hypotheses of the soundness lemmas.
- Solving the concrete `initialBoard` (sudoku.go:19-29) inside the verifier is out of scope: the search is far too deep to evaluate symbolically.
- Solver.Solve: the source's single function is split into the methods `Solve`, `Candidates` and `Place`, each holding one level of the source's nested loops. Their order of board reads and writes is the source's.

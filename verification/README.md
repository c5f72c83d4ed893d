# Integer kernels of The Way to Mojo's benchmark scripts, in Dafny

This project models the integer-only kernels of the benchmark scripts and proves their behaviour.

- **Backtracking Sudoku solver** (`sudoku_solver.py`).
  - `is_valid` scans a row, a column and a 3x3 box for a digit.
  - `solve_sudoku` fills the first empty cell (row-major) with 1..9 in ascending order, recurses, and writes 0 back when the recursive call fails.
  - The script solves one puzzle, prints the grid, and times two more calls on the solved board.
- **In-place prefix sum**, in three variants:
  - `list[i] += list[i - 1]` for `i` in `1..len`, once over 10,000 ones (`prefix_sum.py`);
  - the same, 99 times, with an averaged time (`prefix_sum_avg.py`);
  - the same over a `Vec<i64>` (`prefix_sum.rs`).
- **Accumulation loop** `call1` (`forloop.py`), which sums `0..99_999_999`.

The model is functional.
- A board is `seq<seq<int>>` (0 = empty), and a list is `seq<int>`.
- Each in-place update is a function or method that takes the value it starts from and returns the value it leaves.
- `solve_sudoku` returns its bool together with the board it leaves behind (`SudokuSolver.Outcome`). It resets the cell on the board the failed recursive call returned, exactly as the source does.

Python integers are unbounded, and so are the model's. Rust's `i64` is the newtype `Basics.i64`, and an overflowing addition is an explicit error result.

Files:
- `basics.dfy`: `Option` and the `i64` range.
- `sudoku_board.dfy`: the board, cell assignment, the empty-cell count, and the first-empty-cell scan.
- `sudoku_valid.dfy`: `is_valid`.
- `sudoku_solver.dfy`: `solve_sudoku`, with its soundness and completeness.
- `sudoku_example.dfy`: the example puzzle and its printed result.
- `prefix_sum.dfy`, `prefix_sum_avg.dfy`, `prefix_sum_rs.dfy`: the three prefix-sum scripts.
- `forloop.dfy`: `call1`.

## Model

| member | source | states |
|---|---|---|
| SudokuValid.BoxStart | removed_from_test/sudoku_solver/sudoku_solver.py:10-11 | `row - row % 3` is a multiple of 3, at most `row`, within 3 of it, and in the same band |
| SudokuValid.RowClearFrom | removed_from_test/sudoku_solver/sudoku_solver.py:2-4 | the row loop finds no hit exactly when no cell of the row from column x on holds num |
| SudokuValid.ColClearFrom | removed_from_test/sudoku_solver/sudoku_solver.py:6-8 | the column loop finds no hit exactly when no cell of the column from row x on holds num |
| SudokuValid.BoxRowClearFrom | removed_from_test/sudoku_solver/sudoku_solver.py:13-15 | the inner box loop finds no hit exactly when no cell of that box row from offset j on holds num |
| SudokuValid.BoxClearFrom | removed_from_test/sudoku_solver/sudoku_solver.py:12-15 | the two box loops find no hit exactly when no cell of the box's rows from offset i on holds num |
| SudokuValid.IsValid | removed_from_test/sudoku_solver/sudoku_solver.py:1-16 | True iff num occurs neither in the row, nor in the column, nor in the 3x3 box at (row - row%3, col - col%3); the board is a value and cannot change |
| SudokuValid.IsValidIffNoPeer | removed_from_test/sudoku_solver/sudoku_solver.py:1-16 | the three scans cover exactly the cell and its twenty peers: True iff neither holds num |
| SudokuBoard.Update | removed_from_test/sudoku_solver/sudoku_solver.py:24-27 | `board[i][j] = v` sets that cell and changes no other |
| SudokuBoard.UpdateUndo | removed_from_test/sudoku_solver/sudoku_solver.py:24-27 | writing back a cell's old value restores the board: placing num and then writing 0 undoes the placement |
| SudokuBoard.ZerosFill | removed_from_test/sudoku_solver/sudoku_solver.py:21-25 | filling an empty cell with a digit removes exactly one empty cell, so each recursive call has fewer |
| SudokuBoard.FirstZeroFrom | removed_from_test/sudoku_solver/sudoku_solver.py:20-21 | the inner scan returns the first zero at or after column j, or None when there is none |
| SudokuBoard.FirstEmptyFrom | removed_from_test/sudoku_solver/sudoku_solver.py:19-21 | the nested scan returns the first empty cell in rows i..8 in row-major order, or None when those rows are full |
| SudokuBoard.FirstEmpty | removed_from_test/sudoku_solver/sudoku_solver.py:19-21 | None exactly when the board is full; otherwise an empty cell with no empty cell before it |
| SudokuSolver.Solve | removed_from_test/sudoku_solver/sudoku_solver.py:18-29 | terminates; on False the board equals the input; on True no cell is 0; givens are never changed; every filled cell holds 1..9 |
| SudokuSolver.TryFrom | removed_from_test/sudoku_solver/sudoku_solver.py:22-28 | the candidate loop from num on has the same guarantees, and running out of candidates returns False with the board restored |
| SudokuSolver.TryFromStep | removed_from_test/sudoku_solver/sudoku_solver.py:22-28 | one turn of the loop: it returns the recursive result if num is valid and that search succeeds, else continues with num+1 on the unchanged board |
| SudokuSolver.SolveSound | removed_from_test/sudoku_solver/sudoku_solver.py:21-29 | on True, every cell that was empty on entry differs from all twenty of its peers |
| SudokuSolver.TrySound | removed_from_test/sudoku_solver/sudoku_solver.py:22-27 | the same for the candidate loop |
| SudokuSolver.PlacementStaysDistinct | removed_from_test/sudoku_solver/sudoku_solver.py:23-26 | a placement approved by `is_valid`, followed by a successful search, stays distinct from its peers |
| SudokuSolver.SolveComplete | removed_from_test/sudoku_solver/sudoku_solver.py:18-29 | if some solved grid keeps the board's givens, the search returns True |
| SudokuSolver.TryComplete | removed_from_test/sudoku_solver/sudoku_solver.py:22-28 | the loop reaches that grid's digit at the cell, at the latest, and succeeds |
| SudokuSolver.CompletionDigitIsValid | removed_from_test/sudoku_solver/sudoku_solver.py:23-24 | a completing grid's digit at an empty cell passes `is_valid`, and placing it keeps the board completable |
| SudokuSolver.SolveCorrect | removed_from_test/sudoku_solver/sudoku_solver.py:18-29 | for consistent givens: True iff a completion exists, and the returned board is then one |
| SudokuSolver.SolveFullBoard | removed_from_test/sudoku_solver/sudoku_solver.py:18-29 | a board with no zero returns True and is left unchanged |
| SudokuSolver.DuplicateGivensAccepted | removed_from_test/sudoku_solver/sudoku_solver.py:18-29 | givens are never checked against each other: a full board repeating 5 in a row is reported solved |
| SudokuExample.KnownCompletesExample | removed_from_test/sudoku_solver/sudoku_solver.py:31-55 | the printed grid keeps the puzzle's givens and repeats no digit in any row, column or box |
| SudokuExample.OnlySearchResult | removed_from_test/sudoku_solver/sudoku_solver.py:31-55 | any board that keeps the givens, fills digits and has no filled cell equal to a peer is the printed grid |
| SudokuExample.ExampleRun | removed_from_test/sudoku_solver/sudoku_solver.py:31-55 | the puzzle yields True and the full printed grid, whose first eight rows are the recorded ones |
| SudokuExample.TimedRerun | removed_from_test/sudoku_solver/sudoku_solver.py:57-59 | the timed calls on the solved board return True and change nothing |
| PrefixSum.PrefixSumsSteps | examples/30/prefix_sum/prefix_sum.py:6-7 | the running sums start with the first element, and each adds the next element to its predecessor |
| PrefixSum.PrefixSumPass | examples/30/prefix_sum/prefix_sum.py:6-7 | afterwards element k is the sum of the input's first k+1 elements; length kept, list[0] unwritten, lists of length 0 or 1 unchanged, last element is the total |
| PrefixSum.TotalOnes | examples/30/prefix_sum/prefix_sum.py:3 | a list of n ones totals n |
| PrefixSum.OnesPrefixSums | examples/30/prefix_sum/prefix_sum.py:3-9 | the running sums of n ones are 1, 2, ..., n |
| PrefixSum.PrefixSumScript | examples/30/prefix_sum/prefix_sum.py:3-9 | on 10,000 ones, list[i] == i + 1 and the last element is the total 10,000 |
| PrefixSumAvg.PassesShape | examples/30/prefix_sum/prefix_sum_avg.py:8-9 | any number of passes keeps the length and list[0] |
| PrefixSumAvg.PrefixSumsOfPositive | examples/30/prefix_sum/prefix_sum_avg.py:8-9 | one pass over positive elements gives positive, strictly increasing elements |
| PrefixSumAvg.PassesPositiveIncreasing | examples/30/prefix_sum/prefix_sum_avg.py:6-9 | from positive input, the list is positive and strictly increasing after every pass |
| PrefixSumAvg.FirstPassOnOnes | examples/30/prefix_sum/prefix_sum_avg.py:8-11 | the first pass turns n ones into 1, 2, ..., n |
| PrefixSumAvg.RepeatedPasses | examples/30/prefix_sum/prefix_sum_avg.py:6-9 | the outer loop runs exactly 99 passes even though the inner loop rebinds `i`, and each pass replaces the list by its running sums |
| PrefixSumAvg.ReportedAverageUnderReports | examples/30/prefix_sum/prefix_sum_avg.py:16 | as written, 99 passes of t each are reported as 0.99 t, below their mean |
| PrefixSumAvg.PassAverageOfConstant | examples/30/prefix_sum/prefix_sum_avg.py:14-16 | dividing by the number of passes reports t for passes of t each |
| PrefixSumAvg.PrefixSumAvgScript | examples/30/prefix_sum/prefix_sum_avg.py:3-16 | on 10,000 ones: 99 passes, length 10,000, list[0] == 1, positive and strictly increasing; the reported average is `cum_time / 100` as written, 0.99 times the mean over the 99 passes |
| PrefixSumRs.BuildOnes | examples/30/prefix_sum/prefix_sum.rs:4-7 | the vector holds exactly 10,000 elements, all 1 |
| PrefixSumRs.PrefixSumChecked | examples/30/prefix_sum/prefix_sum.rs:9-11 | overflows iff some running sum past the first element leaves i64; otherwise elements are the running sums, list[0] and the length unchanged, lengths 0 and 1 untouched |
| PrefixSumRs.RustMain | examples/30/prefix_sum/prefix_sum.rs:3-11 | 10,000 ones never overflow, and element i ends as i + 1 |
| ForLoop.SumBelowClosedForm | examples/20/forloop/forloop.py:3-7 | the sum of 0..n-1 is n(n-1)/2 |
| ForLoop.SumBelowMonotone | examples/20/forloop/forloop.py:5-6 | the running sum never decreases, since every added i is non-negative |
| ForLoop.Accumulate | examples/20/forloop/forloop.py:4-7 | after k iterations x == k(k-1)/2; the result is the sum of 0..n-1 |
| ForLoop.Call1 | examples/20/forloop/forloop.py:3-16 | `call1()` returns 4999999950000000, the printed value |
| ForLoop.AccumulatorFitsI64 | examples/20/forloop/forloop.py:5-6 | every intermediate and final x of `call1` lies below 2^63 - 1 |
| ForLoop.Call1I64 | examples/20/forloop/forloop.py:4-7 | the loop with a 64-bit accumulator and counter never overflows and returns the same sum |

## Left out

- Timing and reporting are left out: `time_ns`, `time.time`, `timeit`, `Instant`, the ns-per-element float divisions and every `print`. In `prefix_sum_avg.py` each pass's per-element time is a parameter of `PrefixSumAvg.PrefixSumAvgScript`. Only the final division `cum_time / 100` is modelled, as written, over exact reals; the per-element divisions that produce each pass's figure are not.
- In-place mutation and aliasing are modelled by values. `is_valid` cannot modify the board because the board is a value. The solver's writes are `SudokuBoard.Update`.
- The values the solver writes while searching, which are a digit or 0, are not listed step by step. The contracts state the board it leaves: on False it is unchanged, and on True every cell it filled holds 1..9.
- SudokuSolver.Solve: when a puzzle has several completions, the contract does not say which one the search returns. It says only that the board returned is a completion. For the example puzzle, `SudokuExample.OnlySearchResult` shows that just one board qualifies.
- Inconsistent givens: under the rules of Sudoku a board whose givens repeat a digit in a row, column or box has no solution. The code never compares givens with each other, so such a board can still return True. The model follows the code (`SudokuSolver.DuplicateGivensAccepted`), and `SudokuSolver.SolveCorrect` assumes the givens are consistent.
- The ninth row of the solved grid is not in the recorded output. `SudokuExample.ExampleRun` proves the whole grid and compares the first eight rows with the record.
- PrefixSumRs.PrefixSumChecked follows a debug build, where an `i64` overflow panics. A `rustc -O` build wraps silently instead, and that is not modelled. On the script's input no running sum exceeds 10,000, so both builds agree there.
- `prefix_sum2.py` and `prefix_sum2_avg.py` (`np.cumsum`), `mandelbrot.py`, `euclid_distance.py`, `calc_vecsum*.py`, `pi.py` and `adding_timing.py` are not part of this model. They are floating-point code, numpy calls, or a timing loop around one addition.

## Findings

| source | as written | input that shows it | evidently intended | confidence | as-written member | corrected member |
|---|---|---|---|---|---|---|
| examples/30/prefix_sum/prefix_sum_avg.py:16 | `cum_time / 100` after `for i in range(1, 100)`, which runs 99 passes | 99 passes each taking t ns per element are reported as 0.99 t | divide by the number of passes (99), or run `range(100)` | medium (not executed) | PrefixSumAvg.ReportedAverageUnderReports | PrefixSumAvg.PassAverageOfConstant |

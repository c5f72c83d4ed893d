/** The 9x9 Sudoku board of `sudoku_solver.py`: a list of nine rows of nine
    integers, where 0 marks an empty cell and any other value is a given or
    a placed digit.  The board is a value here; the solver's in-place writes
    are modelled by `Update`. */
module SudokuBoard {
  import opened Basics

  type Board = seq<seq<int>>

  /** Nine rows of nine cells each. */
  predicate IsBoard(b: Board) {
    |b| == 9 && forall r :: 0 <= r < 9 ==> |b[r]| == 9
  }

  predicate Cell(i: int, j: int) {
    0 <= i < 9 && 0 <= j < 9
  }

  /** Cells (i, j) and (k, l) share a row, a column or a 3x3 box. */
  predicate SameUnit(i: int, j: int, k: int, l: int) {
    i == k || j == l || (i / 3 == k / 3 && j / 3 == l / 3)
  }

  /** (k, l) is one of the twenty other cells that constrain (i, j). */
  predicate Peer(i: int, j: int, k: int, l: int) {
    (i != k || j != l) && SameUnit(i, j, k, l)
  }

  /** No peer of (i, j) holds the value v. */
  ghost predicate NoPeerHas(b: Board, i: int, j: int, v: int)
    requires IsBoard(b) && Cell(i, j)
  {
    forall k, l :: Cell(k, l) && Peer(i, j, k, l) ==> b[k][l] != v
  }

  /** No cell is empty. */
  ghost predicate Full(b: Board)
    requires IsBoard(b)
  {
    forall i, j :: Cell(i, j) ==> b[i][j] != 0
  }

  /** A solved grid: every cell holds a digit 1..9 and no digit repeats
      within a row, a column or a box. */
  ghost predicate IsSolution(s: Board)
    requires IsBoard(s)
  {
    && (forall i, j :: Cell(i, j) ==> 1 <= s[i][j] <= 9)
    && (forall i, j :: Cell(i, j) ==> NoPeerHas(s, i, j, s[i][j]))
  }

  /** s keeps every non-zero cell of b. */
  ghost predicate KeepsGivens(b: Board, s: Board)
    requires IsBoard(b) && IsBoard(s)
  {
    forall i, j :: Cell(i, j) && b[i][j] != 0 ==> s[i][j] == b[i][j]
  }

  /** s is a solved grid that agrees with b on every non-zero cell of b. */
  ghost predicate Completes(b: Board, s: Board)
    requires IsBoard(b) && IsBoard(s)
  {
    KeepsGivens(b, s) && IsSolution(s)
  }

  /** The givens of b are digits and no two peers among them are equal. */
  ghost predicate GivensConsistent(b: Board)
    requires IsBoard(b)
  {
    forall i, j :: Cell(i, j) && b[i][j] != 0 ==>
      1 <= b[i][j] <= 9 && NoPeerHas(b, i, j, b[i][j])
  }

  /** The assignment `board[i][j] = v`: cell (i, j) becomes v and nothing
      else changes. */
  function Update(b: Board, i: int, j: int, v: int): (r: Board)
    requires IsBoard(b) && Cell(i, j)
    ensures IsBoard(r)
    ensures r[i][j] == v
    ensures forall k, l :: Cell(k, l) && (k != i || l != j) ==> r[k][l] == b[k][l]
  {
    b[i := b[i][j := v]]
  }

  /** Writing back the value a cell had restores the board. */
  lemma UpdateUndo(b: Board, i: int, j: int, v: int)
    requires IsBoard(b) && Cell(i, j)
    ensures Update(Update(b, i, j, v), i, j, b[i][j]) == b
  {
    var r := Update(Update(b, i, j, v), i, j, b[i][j]);
    forall k | 0 <= k < 9
      ensures r[k] == b[k]
    {
      assert |r[k]| == |b[k]|;
      forall l | 0 <= l < 9
        ensures r[k][l] == b[k][l]
      {
      }
    }
  }

  // ---------------------------------------------------------------------
  // Counting empty cells: the measure that makes the search terminate.

  function RowZeros(row: seq<int>): nat {
    if |row| == 0 then 0
    else (if row[0] == 0 then 1 else 0) + RowZeros(row[1..])
  }

  function Zeros(b: Board): nat {
    if |b| == 0 then 0 else RowZeros(b[0]) + Zeros(b[1..])
  }

  /** Assigning a row cell changes the row's count of zeros by what the old
      and the new value contribute. */
  lemma {:induction false} RowZerosUpdate(row: seq<int>, j: int, v: int)
    requires 0 <= j < |row|
    ensures RowZeros(row[j := v]) + (if row[j] == 0 then 1 else 0)
         == RowZeros(row) + (if v == 0 then 1 else 0)
  {
    if j > 0 {
      assert row[j := v][1..] == row[1..][j - 1 := v];
      RowZerosUpdate(row[1..], j - 1, v);
    } else {
      assert row[j := v][1..] == row[1..];
    }
  }

  /** Replacing a row changes the board's count by the difference of the
      rows' counts. */
  lemma {:induction false} ZerosReplaceRow(b: Board, i: int, row: seq<int>)
    requires 0 <= i < |b|
    ensures Zeros(b[i := row]) + RowZeros(b[i]) == Zeros(b) + RowZeros(row)
  {
    if i > 0 {
      assert b[i := row][1..] == b[1..][i - 1 := row];
      ZerosReplaceRow(b[1..], i - 1, row);
    } else {
      assert b[i := row][1..] == b[1..];
    }
  }

  /** Filling an empty cell with a non-zero value removes exactly one empty
      cell. */
  lemma ZerosFill(b: Board, i: int, j: int, v: int)
    requires IsBoard(b) && Cell(i, j)
    requires b[i][j] == 0 && v != 0
    ensures Zeros(Update(b, i, j, v)) + 1 == Zeros(b)
  {
    RowZerosUpdate(b[i], j, v);
    ZerosReplaceRow(b, i, b[i][j := v]);
  }

  // ---------------------------------------------------------------------
  // The first empty cell in row-major order (the two nested `for` loops at
  // the top of `solve_sudoku`).

  /** (k, l) comes before (i, j) in row-major order. */
  predicate Before(k: int, l: int, i: int, j: int) {
    k < i || (k == i && l < j)
  }

  /** The inner loop: the first zero of `row` at or after column j. */
  function FirstZeroFrom(row: seq<int>, j: nat): (r: Option<int>)
    requires j <= |row|
    ensures r.None? ==> forall l :: j <= l < |row| ==> row[l] != 0
    ensures r.Some? ==> j <= r.value < |row| && row[r.value] == 0
    ensures r.Some? ==> forall l :: j <= l < r.value ==> row[l] != 0
    decreases |row| - j
  {
    if j == |row| then None
    else if row[j] == 0 then Some(j)
    else FirstZeroFrom(row, j + 1)
  }

  /** The outer loop: the first empty cell in rows i..8, in row-major order. */
  function FirstEmptyFrom(b: Board, i: nat): (r: Option<(int, int)>)
    requires IsBoard(b) && i <= 9
    ensures r.None? ==> forall k, l :: i <= k < 9 && 0 <= l < 9 ==> b[k][l] != 0
    ensures r.Some? ==> i <= r.value.0 && Cell(r.value.0, r.value.1)
    ensures r.Some? ==> b[r.value.0][r.value.1] == 0
    ensures r.Some? ==> forall k, l :: i <= k && Cell(k, l) && Before(k, l, r.value.0, r.value.1) ==> b[k][l] != 0
    decreases 9 - i
  {
    if i == 9 then None
    else
      match FirstZeroFrom(b[i], 0)
      case Some(j) => Some((i, j))
      case None => FirstEmptyFrom(b, i + 1)
  }

  /** The cell `solve_sudoku` works on: the first empty cell in row-major
      order, or None when the board is full. */
  function FirstEmpty(b: Board): (r: Option<(int, int)>)
    requires IsBoard(b)
    ensures r.None? <==> Full(b)
    ensures r.Some? ==> Cell(r.value.0, r.value.1) && b[r.value.0][r.value.1] == 0
    ensures r.Some? ==> forall k, l :: Cell(k, l) && Before(k, l, r.value.0, r.value.1) ==> b[k][l] != 0
  {
    FirstEmptyFrom(b, 0)
  }
}

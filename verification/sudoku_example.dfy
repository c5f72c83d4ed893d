/** The example run at the bottom of `sudoku_solver.py`: the puzzle, the
    grid the solver prints (the comment records its first eight rows), and
    the timed second call on the already-solved board.

    `solve_sudoku` cannot be unfolded on this puzzle by the verifier, so the
    result is pinned down by the solver's contracts instead: completeness
    says the search succeeds because `Known` completes the puzzle, and
    soundness says the board it returns agrees with the givens, holds digits
    and repeats no digit next to a filled cell, which by a chain of
    deductions (each empty cell sees eight distinct digits among its peers)
    leaves `Known` as the only such board. */
module SudokuExample {
  import opened SudokuBoard
  import opened SudokuSolver

  /** The puzzle as written in the source (0 = empty). */
  const Example: Board := [
    [5, 3, 0, 0, 7, 0, 0, 0, 0],
    [6, 0, 0, 1, 9, 5, 0, 0, 0],
    [0, 9, 8, 0, 0, 0, 0, 6, 0],
    [8, 0, 0, 0, 6, 0, 0, 0, 3],
    [4, 0, 0, 8, 0, 3, 0, 0, 1],
    [7, 0, 0, 0, 2, 0, 0, 0, 6],
    [0, 6, 0, 0, 0, 0, 2, 8, 0],
    [0, 0, 0, 4, 1, 9, 0, 0, 5],
    [0, 0, 0, 0, 8, 0, 0, 7, 9]]

  /** The eight rows printed in the source's recorded output. */
  const Recorded: seq<seq<int>> := [
    [5, 3, 4, 6, 7, 8, 9, 1, 2],
    [6, 7, 2, 1, 9, 5, 3, 4, 8],
    [1, 9, 8, 3, 4, 2, 5, 6, 7],
    [8, 5, 9, 7, 6, 1, 4, 2, 3],
    [4, 2, 6, 8, 5, 3, 7, 9, 1],
    [7, 1, 3, 9, 2, 4, 8, 5, 6],
    [9, 6, 1, 5, 3, 7, 2, 8, 4],
    [2, 8, 7, 4, 1, 9, 6, 3, 5]]

  /** The printed grid: the recorded rows and the ninth row, which the
      recorded output omits. */
  const Known: Board := [
    [5, 3, 4, 6, 7, 8, 9, 1, 2],
    [6, 7, 2, 1, 9, 5, 3, 4, 8],
    [1, 9, 8, 3, 4, 2, 5, 6, 7],
    [8, 5, 9, 7, 6, 1, 4, 2, 3],
    [4, 2, 6, 8, 5, 3, 7, 9, 1],
    [7, 1, 3, 9, 2, 4, 8, 5, 6],
    [9, 6, 1, 5, 3, 7, 2, 8, 4],
    [2, 8, 7, 4, 1, 9, 6, 3, 5],
    [3, 4, 5, 2, 8, 6, 1, 7, 9]]

  // -----------------------------------------------------------------------
  // Known is a solution of the puzzle.

  // Each unit is checked on its own, one case per index, so that the
  // verifier only ever compares the nine cells of one unit.

  /** No digit repeats in row i of Known. */
  lemma KnownRow(i: int)
    requires 0 <= i < 9
    ensures forall j, l :: 0 <= j < l < 9 ==> Known[i][j] != Known[i][l]
  {
    if i == 0 {} else if i == 1 {} else if i == 2 {} else if i == 3 {} else if i == 4 {}
    else if i == 5 {} else if i == 6 {} else if i == 7 {} else {}
  }

  /** No digit repeats in column j of Known. */
  lemma KnownColumn(j: int)
    requires 0 <= j < 9
    ensures forall i, k :: 0 <= i < k < 9 ==> Known[i][j] != Known[k][j]
  {
    if j == 0 {} else if j == 1 {} else if j == 2 {} else if j == 3 {} else if j == 4 {}
    else if j == 5 {} else if j == 6 {} else if j == 7 {} else {}
  }

  /** No digit repeats in box (r, c) of Known, the box of rows 3r..3r+2 and
      columns 3c..3c+2. */
  lemma KnownBox(r: int, c: int)
    requires 0 <= r < 3 && 0 <= c < 3
    ensures forall i, j, k, l ::
      3 * r <= i < 3 * r + 3 && 3 * c <= j < 3 * c + 3 && 3 * r <= k < 3 * r + 3 && 3 * c <= l < 3 * c + 3 && (i != k || j != l) ==>
        Known[i][j] != Known[k][l]
  {
    if r == 0 {
      if c == 0 {} else if c == 1 {} else {}
    } else if r == 1 {
      if c == 0 {} else if c == 1 {} else {}
    } else {
      if c == 0 {} else if c == 1 {} else {}
    }
  }

  /** No digit repeats in any row, column or box of Known. */
  lemma KnownUnitsDistinct()
    ensures forall i, j, k, l :: Cell(i, j) && Cell(k, l) && Peer(i, j, k, l) ==> Known[i][j] != Known[k][l]
  {
    forall i, j, k, l | Cell(i, j) && Cell(k, l) && Peer(i, j, k, l)
      ensures Known[i][j] != Known[k][l]
    {
      if i == k {
        KnownRow(i);
        if l < j {
          assert Known[i][l] != Known[i][j];
        }
      } else if j == l {
        KnownColumn(j);
        if k < i {
          assert Known[k][j] != Known[i][j];
        }
      } else {
        KnownBox(i / 3, j / 3);
      }
    }
  }

  /** The printed grid solves the puzzle. */
  lemma KnownCompletesExample()
    ensures IsBoard(Example) && IsBoard(Known)
    ensures Completes(Example, Known)
  {
    KnownUnitsDistinct();
    assert forall i, j :: Cell(i, j) ==> 1 <= Known[i][j] <= 9;
  }

  // -----------------------------------------------------------------------
  // Known is the only board the search can return.

  /** What the solver's contracts promise of a successful search of the
      puzzle.  The uniqueness fact is used one cell at a time (it is
      instantiated only where `NoPeerHas` is mentioned). */
  ghost predicate SearchResult(s: Board)
  {
    && IsBoard(s) && KeepsGivens(Example, s)
    && (forall i, j :: Cell(i, j) && Example[i][j] == 0 ==> 1 <= s[i][j] <= 9)
    && (forall i, j {:trigger NoPeerHas(s, i, j, s[i][j])} ::
          Cell(i, j) && Example[i][j] == 0 ==> NoPeerHas(s, i, j, s[i][j]))
  }

  /** Peer c of (i, j) holds the digit w, or w is the digit v being deduced. */
  ghost predicate Excludes(s: Board, i: int, j: int, v: int, w: int, c: (int, int))
    requires IsBoard(s) && Cell(i, j)
  {
    w == v || (Cell(c.0, c.1) && Peer(i, j, c.0, c.1) && s[c.0][c.1] == w)
  }

  /** A naked single: an empty cell whose peers show every digit but v must
      hold v.  ws[w - 1] is a peer showing w. */
  lemma NakedSingle(s: Board, i: int, j: int, v: int, ws: seq<(int, int)>)
    requires SearchResult(s) && Cell(i, j) && Example[i][j] == 0
    requires |ws| == 9
    requires Excludes(s, i, j, v, 1, ws[0]) && Excludes(s, i, j, v, 2, ws[1]) && Excludes(s, i, j, v, 3, ws[2])
    requires Excludes(s, i, j, v, 4, ws[3]) && Excludes(s, i, j, v, 5, ws[4]) && Excludes(s, i, j, v, 6, ws[5])
    requires Excludes(s, i, j, v, 7, ws[6]) && Excludes(s, i, j, v, 8, ws[7]) && Excludes(s, i, j, v, 9, ws[8])
    ensures s[i][j] == v
  {
    assert NoPeerHas(s, i, j, s[i][j]);
  }

  lemma GivensKept(s: Board)
    requires SearchResult(s)
    ensures
      s[0][0] == 5 &&
      s[0][1] == 3 &&
      s[0][4] == 7 &&
      s[1][0] == 6 &&
      s[1][3] == 1 &&
      s[1][4] == 9 &&
      s[1][5] == 5 &&
      s[2][1] == 9 &&
      s[2][2] == 8 &&
      s[2][7] == 6 &&
      s[3][0] == 8 &&
      s[3][4] == 6 &&
      s[3][8] == 3 &&
      s[4][0] == 4 &&
      s[4][3] == 8 &&
      s[4][5] == 3 &&
      s[4][8] == 1 &&
      s[5][0] == 7 &&
      s[5][4] == 2 &&
      s[5][8] == 6 &&
      s[6][1] == 6 &&
      s[6][6] == 2 &&
      s[6][7] == 8 &&
      s[7][3] == 4 &&
      s[7][4] == 1 &&
      s[7][5] == 9 &&
      s[7][8] == 5 &&
      s[8][4] == 8 &&
      s[8][7] == 7 &&
      s[8][8] == 9
  {
  }

  /** Deductions 1 to 13, in the order the digits become forced. */
  lemma Forced1(s: Board)
    requires SearchResult(s)
    ensures
      s[4][4] == 5 &&
      s[5][3] == 9 &&
      s[6][4] == 3 &&
      s[6][5] == 7 &&
      s[6][8] == 4 &&
      s[7][7] == 3 &&
      s[2][4] == 4 &&
      s[2][5] == 2 &&
      s[2][8] == 7 &&
      s[3][3] == 7 &&
      s[4][1] == 2 &&
      s[4][7] == 9 &&
      s[6][3] == 5
  {
    GivensKept(s);
    NakedSingle(s, 4, 4, 5, [(4, 8), (5, 4), (4, 5), (4, 0), (4, 4), (3, 4), (0, 4), (4, 3), (1, 4)]);
    NakedSingle(s, 5, 3, 9, [(1, 3), (5, 4), (4, 5), (7, 3), (4, 4), (3, 4), (5, 0), (4, 3), (5, 3)]);
    NakedSingle(s, 6, 4, 3, [(7, 4), (5, 4), (6, 4), (7, 3), (4, 4), (3, 4), (0, 4), (6, 7), (1, 4)]);
    NakedSingle(s, 6, 5, 7, [(7, 4), (6, 6), (4, 5), (7, 3), (1, 5), (6, 1), (6, 5), (6, 7), (7, 5)]);
    NakedSingle(s, 6, 8, 4, [(4, 8), (6, 6), (3, 8), (6, 8), (7, 8), (5, 8), (6, 5), (6, 7), (8, 8)]);
    NakedSingle(s, 7, 7, 3, [(7, 4), (6, 6), (7, 7), (6, 8), (7, 8), (2, 7), (8, 7), (6, 7), (7, 5)]);
    NakedSingle(s, 2, 4, 4, [(1, 3), (5, 4), (6, 4), (2, 4), (1, 5), (2, 7), (0, 4), (2, 2), (1, 4)]);
    NakedSingle(s, 2, 5, 2, [(1, 3), (2, 5), (4, 5), (2, 4), (1, 5), (2, 7), (0, 4), (2, 2), (1, 4)]);
    NakedSingle(s, 2, 8, 7, [(4, 8), (2, 5), (3, 8), (2, 4), (7, 8), (2, 7), (2, 8), (2, 2), (2, 1)]);
    NakedSingle(s, 3, 3, 7, [(1, 3), (5, 4), (3, 8), (7, 3), (4, 4), (3, 4), (3, 3), (3, 0), (5, 3)]);
    NakedSingle(s, 4, 1, 2, [(4, 8), (4, 1), (0, 1), (4, 0), (4, 4), (6, 1), (5, 0), (3, 0), (2, 1)]);
    NakedSingle(s, 4, 7, 9, [(4, 8), (4, 1), (3, 8), (4, 0), (4, 4), (2, 7), (8, 7), (4, 3), (4, 7)]);
    NakedSingle(s, 6, 3, 5, [(1, 3), (6, 6), (6, 4), (6, 8), (6, 3), (6, 1), (3, 3), (4, 3), (5, 3)]);
  }

  /** Deductions 14 to 26, in the order the digits become forced. */
  lemma Forced2(s: Board)
    requires SearchResult(s)
    ensures
      s[7][0] == 2 &&
      s[7][2] == 7 &&
      s[7][6] == 6 &&
      s[8][5] == 6 &&
      s[8][6] == 1 &&
      s[0][3] == 6 &&
      s[0][5] == 8 &&
      s[0][8] == 2 &&
      s[1][7] == 4 &&
      s[1][8] == 8 &&
      s[2][0] == 1 &&
      s[2][3] == 3 &&
      s[2][6] == 5
  {
    GivensKept(s);
    Forced1(s);
    NakedSingle(s, 7, 0, 2, [(7, 4), (7, 0), (7, 7), (4, 0), (0, 0), (1, 0), (5, 0), (3, 0), (7, 5)]);
    NakedSingle(s, 7, 2, 7, [(7, 4), (7, 0), (7, 7), (7, 3), (7, 8), (6, 1), (7, 2), (2, 2), (7, 5)]);
    NakedSingle(s, 7, 6, 6, [(7, 4), (6, 6), (7, 7), (6, 8), (7, 8), (7, 6), (7, 2), (6, 7), (7, 5)]);
    NakedSingle(s, 8, 5, 6, [(7, 4), (2, 5), (4, 5), (7, 3), (1, 5), (8, 5), (6, 5), (8, 4), (7, 5)]);
    NakedSingle(s, 8, 6, 1, [(8, 6), (6, 6), (7, 7), (6, 8), (7, 8), (7, 6), (8, 7), (6, 7), (8, 8)]);
    NakedSingle(s, 0, 3, 6, [(1, 3), (2, 5), (0, 1), (2, 4), (0, 0), (0, 3), (0, 4), (4, 3), (1, 4)]);
    NakedSingle(s, 0, 5, 8, [(1, 3), (2, 5), (0, 1), (2, 4), (0, 0), (0, 3), (0, 4), (0, 5), (1, 4)]);
    NakedSingle(s, 0, 8, 2, [(4, 8), (0, 8), (0, 1), (6, 8), (0, 0), (0, 3), (0, 4), (0, 5), (8, 8)]);
    NakedSingle(s, 1, 7, 4, [(1, 3), (0, 8), (7, 7), (1, 7), (1, 5), (1, 0), (2, 8), (6, 7), (1, 4)]);
    NakedSingle(s, 1, 8, 8, [(1, 3), (0, 8), (3, 8), (1, 7), (1, 5), (1, 0), (2, 8), (1, 8), (1, 4)]);
    NakedSingle(s, 2, 0, 1, [(2, 0), (2, 5), (0, 1), (2, 4), (0, 0), (1, 0), (2, 8), (2, 2), (2, 1)]);
    NakedSingle(s, 2, 3, 3, [(1, 3), (2, 5), (2, 3), (2, 4), (1, 5), (0, 3), (0, 4), (0, 5), (1, 4)]);
    NakedSingle(s, 2, 6, 5, [(2, 0), (0, 8), (2, 3), (1, 7), (2, 6), (2, 7), (2, 8), (1, 8), (2, 1)]);
  }

  /** Deductions 27 to 39, in the order the digits become forced. */
  lemma Forced3(s: Board)
    requires SearchResult(s)
    ensures
      s[3][6] == 4 &&
      s[4][2] == 6 &&
      s[4][6] == 7 &&
      s[5][6] == 8 &&
      s[5][7] == 5 &&
      s[6][0] == 9 &&
      s[6][2] == 1 &&
      s[7][1] == 8 &&
      s[8][0] == 3 &&
      s[8][3] == 2 &&
      s[0][2] == 4 &&
      s[0][6] == 9 &&
      s[0][7] == 1
  {
    GivensKept(s);
    Forced1(s);
    Forced2(s);
    NakedSingle(s, 3, 6, 4, [(4, 8), (6, 6), (3, 8), (3, 6), (2, 6), (3, 4), (3, 3), (3, 0), (4, 7)]);
    NakedSingle(s, 4, 2, 6, [(4, 8), (4, 1), (4, 5), (4, 0), (4, 4), (4, 2), (5, 0), (2, 2), (4, 7)]);
    NakedSingle(s, 4, 6, 7, [(4, 8), (4, 1), (3, 8), (3, 6), (2, 6), (4, 2), (4, 6), (4, 3), (4, 7)]);
    NakedSingle(s, 5, 6, 8, [(4, 8), (5, 4), (3, 8), (3, 6), (2, 6), (5, 8), (4, 6), (5, 6), (4, 7)]);
    NakedSingle(s, 5, 7, 5, [(4, 8), (5, 4), (3, 8), (1, 7), (5, 7), (2, 7), (4, 6), (5, 6), (4, 7)]);
    NakedSingle(s, 6, 0, 9, [(2, 0), (6, 6), (6, 4), (4, 0), (0, 0), (1, 0), (5, 0), (3, 0), (6, 0)]);
    NakedSingle(s, 6, 2, 1, [(6, 2), (6, 6), (6, 4), (6, 8), (6, 3), (4, 2), (6, 5), (2, 2), (6, 0)]);
    NakedSingle(s, 7, 1, 8, [(6, 2), (4, 1), (0, 1), (7, 3), (7, 8), (6, 1), (7, 2), (7, 1), (2, 1)]);
    NakedSingle(s, 8, 0, 3, [(2, 0), (7, 0), (8, 0), (4, 0), (0, 0), (1, 0), (5, 0), (3, 0), (6, 0)]);
    NakedSingle(s, 8, 3, 2, [(1, 3), (8, 3), (2, 3), (7, 3), (6, 3), (0, 3), (3, 3), (4, 3), (5, 3)]);
    NakedSingle(s, 0, 2, 4, [(2, 0), (0, 8), (0, 1), (0, 2), (0, 0), (0, 3), (0, 4), (0, 5), (2, 1)]);
    NakedSingle(s, 0, 6, 9, [(8, 6), (0, 8), (0, 1), (0, 2), (0, 0), (0, 3), (0, 4), (0, 5), (0, 6)]);
    NakedSingle(s, 0, 7, 1, [(0, 7), (0, 8), (0, 1), (0, 2), (0, 0), (0, 3), (0, 4), (0, 5), (0, 6)]);
  }

  /** Deductions 40 to 51, in the order the digits become forced. */
  lemma Forced4(s: Board)
    requires SearchResult(s)
    ensures
      s[1][1] == 7 &&
      s[1][2] == 2 &&
      s[1][6] == 3 &&
      s[3][5] == 1 &&
      s[3][7] == 2 &&
      s[5][1] == 1 &&
      s[5][2] == 3 &&
      s[5][5] == 4 &&
      s[8][2] == 5 &&
      s[3][1] == 5 &&
      s[3][2] == 9 &&
      s[8][1] == 4
  {
    GivensKept(s);
    Forced1(s);
    Forced2(s);
    Forced3(s);
    NakedSingle(s, 1, 1, 7, [(1, 3), (4, 1), (0, 1), (0, 2), (0, 0), (1, 0), (1, 1), (1, 8), (1, 4)]);
    NakedSingle(s, 1, 2, 2, [(1, 3), (1, 2), (0, 1), (0, 2), (0, 0), (1, 0), (1, 1), (1, 8), (1, 4)]);
    NakedSingle(s, 1, 6, 3, [(0, 7), (0, 8), (1, 6), (1, 7), (1, 5), (1, 0), (1, 1), (1, 8), (0, 6)]);
    NakedSingle(s, 3, 5, 1, [(3, 5), (2, 5), (3, 8), (3, 6), (1, 5), (3, 4), (3, 3), (0, 5), (5, 3)]);
    NakedSingle(s, 3, 7, 2, [(0, 7), (3, 7), (3, 8), (1, 7), (5, 7), (2, 7), (3, 3), (3, 0), (4, 7)]);
    NakedSingle(s, 5, 1, 1, [(5, 1), (4, 1), (0, 1), (4, 0), (5, 7), (4, 2), (1, 1), (3, 0), (2, 1)]);
    NakedSingle(s, 5, 2, 3, [(5, 1), (1, 2), (5, 2), (0, 2), (5, 7), (4, 2), (5, 0), (2, 2), (5, 3)]);
    NakedSingle(s, 5, 5, 4, [(3, 5), (2, 5), (4, 5), (5, 5), (1, 5), (3, 4), (3, 3), (0, 5), (5, 3)]);
    NakedSingle(s, 8, 2, 5, [(6, 2), (1, 2), (5, 2), (0, 2), (8, 2), (4, 2), (7, 2), (2, 2), (6, 0)]);
    NakedSingle(s, 3, 1, 5, [(3, 5), (3, 7), (0, 1), (3, 6), (3, 1), (3, 4), (1, 1), (3, 0), (2, 1)]);
    NakedSingle(s, 3, 2, 9, [(3, 5), (1, 2), (3, 8), (0, 2), (3, 1), (3, 4), (3, 3), (2, 2), (3, 2)]);
    NakedSingle(s, 8, 1, 4, [(5, 1), (4, 1), (0, 1), (8, 1), (3, 1), (6, 1), (1, 1), (7, 1), (2, 1)]);
  }

  /** A board that holds Known's digit in every cell is Known. */
  lemma CellsMakeKnown(s: Board)
    requires IsBoard(s)
    requires
      s[0][0] == 5 && s[0][1] == 3 && s[0][2] == 4 && s[0][3] == 6 && s[0][4] == 7 && s[0][5] == 8 && s[0][6] == 9 && s[0][7] == 1 && s[0][8] == 2 &&
      s[1][0] == 6 && s[1][1] == 7 && s[1][2] == 2 && s[1][3] == 1 && s[1][4] == 9 && s[1][5] == 5 && s[1][6] == 3 && s[1][7] == 4 && s[1][8] == 8 &&
      s[2][0] == 1 && s[2][1] == 9 && s[2][2] == 8 && s[2][3] == 3 && s[2][4] == 4 && s[2][5] == 2 && s[2][6] == 5 && s[2][7] == 6 && s[2][8] == 7 &&
      s[3][0] == 8 && s[3][1] == 5 && s[3][2] == 9 && s[3][3] == 7 && s[3][4] == 6 && s[3][5] == 1 && s[3][6] == 4 && s[3][7] == 2 && s[3][8] == 3 &&
      s[4][0] == 4 && s[4][1] == 2 && s[4][2] == 6 && s[4][3] == 8 && s[4][4] == 5 && s[4][5] == 3 && s[4][6] == 7 && s[4][7] == 9 && s[4][8] == 1 &&
      s[5][0] == 7 && s[5][1] == 1 && s[5][2] == 3 && s[5][3] == 9 && s[5][4] == 2 && s[5][5] == 4 && s[5][6] == 8 && s[5][7] == 5 && s[5][8] == 6 &&
      s[6][0] == 9 && s[6][1] == 6 && s[6][2] == 1 && s[6][3] == 5 && s[6][4] == 3 && s[6][5] == 7 && s[6][6] == 2 && s[6][7] == 8 && s[6][8] == 4 &&
      s[7][0] == 2 && s[7][1] == 8 && s[7][2] == 7 && s[7][3] == 4 && s[7][4] == 1 && s[7][5] == 9 && s[7][6] == 6 && s[7][7] == 3 && s[7][8] == 5 &&
      s[8][0] == 3 && s[8][1] == 4 && s[8][2] == 5 && s[8][3] == 2 && s[8][4] == 8 && s[8][5] == 6 && s[8][6] == 1 && s[8][7] == 7 && s[8][8] == 9
    ensures s == Known
  {
    forall i | 0 <= i < 9
      ensures s[i] == Known[i]
    {
    }
  }

  /** Every board satisfying the search's guarantees is Known. */
  lemma OnlySearchResult(s: Board)
    requires SearchResult(s)
    ensures s == Known
  {
    GivensKept(s);
    Forced1(s);
    Forced2(s);
    Forced3(s);
    Forced4(s);
    CellsMakeKnown(s);
  }

  // -----------------------------------------------------------------------
  // The run.

  /** `solve_sudoku(board)` on the puzzle prints True and the grid Known;
      the first eight rows are the recorded ones. */
  lemma ExampleRun()
    ensures IsBoard(Example)
    ensures Solve(Example) == Outcome(true, Known)
    ensures Solve(Example).board[..8] == Recorded
  {
    KnownCompletesExample();
    SolveComplete(Example, Known);
    SolveSound(Example);
    var s := Solve(Example).board;
    assert SearchResult(s) by {
      forall i, j | Cell(i, j) && Example[i][j] == 0
        ensures NoPeerHas(s, i, j, s[i][j])
      {
        assert FilledDistinct(Example, s);
      }
    }
    OnlySearchResult(s);
  }

  /** The timed calls run on the board the first call solved: each returns
      True and leaves the board as it is. */
  lemma TimedRerun()
    ensures IsBoard(Known)
    ensures Solve(Known) == Outcome(true, Known)
  {
    KnownCompletesExample();
    SolveFullBoard(Known);
  }
}

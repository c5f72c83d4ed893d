/** `solve_sudoku` of `sudoku_solver.py`: depth-first search that fills the
    first empty cell (row-major) with the candidates 1..9 in ascending
    order, recurses, and writes 0 back when the recursive call fails.

    The source mutates one board in place and returns a bool; here each call
    takes the board it starts from and returns the board it leaves behind
    together with that bool.  `TryFrom` is the `for num in range(1, 10)` loop
    from candidate `num` on.  After a failed recursive call the source resets
    the cell on the board the call left behind, and so does the model; that
    this is the board before the placement is part of `Solve`'s contract. */
module SudokuSolver {
  import opened Basics
  import opened SudokuBoard
  import opened SudokuValid

  /** The bool `solve_sudoku` returns and the board it leaves. */
  datatype Outcome = Outcome(solved: bool, board: Board)

  /** `solve_sudoku(board)`.  Termination: each recursive call of `Solve`
      is made on a board with one empty cell fewer. */
  function Solve(b: Board): (r: Outcome)
    requires IsBoard(b)
    ensures IsBoard(r.board)
    // a failed search leaves the board exactly as it found it
    ensures !r.solved ==> r.board == b
    // a successful search leaves no empty cell
    ensures r.solved ==> Full(r.board)
    // givens are never written
    ensures KeepsGivens(b, r.board)
    // every cell the search filled holds a digit
    ensures r.solved ==> forall i, j :: Cell(i, j) && b[i][j] == 0 ==> 1 <= r.board[i][j] <= 9
    decreases Zeros(b), 1, 0
  {
    match FirstEmpty(b)
    case None => Outcome(true, b)
    case Some((i, j)) => TryFrom(b, i, j, 1)
  }

  /** The candidate loop at the empty cell (i, j), from candidate `num` on;
      `num == 10` is the loop running out, which returns False. */
  function TryFrom(b: Board, i: int, j: int, num: int): (r: Outcome)
    requires IsBoard(b) && Cell(i, j) && b[i][j] == 0 && 1 <= num <= 10
    ensures IsBoard(r.board)
    ensures !r.solved ==> r.board == b
    ensures r.solved ==> Full(r.board)
    ensures KeepsGivens(b, r.board)
    ensures r.solved ==> forall k, l :: Cell(k, l) && b[k][l] == 0 ==> 1 <= r.board[k][l] <= 9
    decreases Zeros(b), 0, 10 - num
  {
    if num == 10 then Outcome(false, b)
    else if !IsValid(b, i, j, num) then TryFrom(b, i, j, num + 1)
    else
      var placed := Update(b, i, j, num);
      ZerosFill(b, i, j, num);
      var inner := Solve(placed);
      if inner.solved then inner
      else
        UpdateUndo(b, i, j, num);
        TryFrom(Update(inner.board, i, j, 0), i, j, num + 1)
  }

  // -----------------------------------------------------------------------
  // Soundness: every digit the search placed differs from all of its peers.

  /** On success, no cell that was empty on entry shares its digit with a
      peer.  (Givens are not checked against each other; see
      `DuplicateGivensAccepted`.) */
  ghost predicate FilledDistinct(b: Board, s: Board)
    requires IsBoard(b) && IsBoard(s)
  {
    forall i, j :: Cell(i, j) && b[i][j] == 0 ==> NoPeerHas(s, i, j, s[i][j])
  }

  lemma {:induction false} SolveSound(b: Board)
    requires IsBoard(b)
    ensures Solve(b).solved ==> FilledDistinct(b, Solve(b).board)
    decreases Zeros(b), 1, 0
  {
    match FirstEmpty(b)
    case None =>
    case Some((i, j)) => TrySound(b, i, j, 1);
  }

  lemma {:induction false} TrySound(b: Board, i: int, j: int, num: int)
    requires IsBoard(b) && Cell(i, j) && b[i][j] == 0 && 1 <= num <= 10
    ensures TryFrom(b, i, j, num).solved ==> FilledDistinct(b, TryFrom(b, i, j, num).board)
    decreases Zeros(b), 0, 10 - num
  {
    if num < 10 {
      var placed := Update(b, i, j, num);
      TryFromStep(b, i, j, num);
      if IsValid(b, i, j, num) && Solve(placed).solved {
        ZerosFill(b, i, j, num);
        SolveSound(placed);
        PlacementStaysDistinct(b, i, j, num, Solve(placed).board);
      } else {
        TrySound(b, i, j, num + 1);
      }
    }
  }

  /** One turn of the candidate loop: the result is that of the search after
      placing num, when `is_valid` approves num and that search succeeds,
      and otherwise that of the loop from num + 1 on the same board (a failed
      search has been undone). */
  lemma TryFromStep(b: Board, i: int, j: int, num: int)
    requires IsBoard(b) && Cell(i, j) && b[i][j] == 0 && 1 <= num < 10
    ensures var placed := Update(b, i, j, num);
      TryFrom(b, i, j, num) ==
        if IsValid(b, i, j, num) && Solve(placed).solved then Solve(placed) else TryFrom(b, i, j, num + 1)
  {
    if IsValid(b, i, j, num) {
      var inner := Solve(Update(b, i, j, num));
      if !inner.solved {
        UpdateUndo(b, i, j, num);
        assert Update(inner.board, i, j, 0) == b;
      }
    }
  }

  /** The step of the soundness proof: a digit placed after `is_valid`
      approved it, followed by a successful search of the rest. */
  lemma PlacementStaysDistinct(b: Board, i: int, j: int, num: int, s: Board)
    requires IsBoard(b) && IsBoard(s) && Cell(i, j) && b[i][j] == 0
    requires IsValid(b, i, j, num)
    requires KeepsGivens(Update(b, i, j, num), s)
    requires FilledDistinct(Update(b, i, j, num), s)
    ensures FilledDistinct(b, s)
  {
    var placed := Update(b, i, j, num);
    IsValidIffNoPeer(b, i, j, num);
    assert s[i][j] == num;
    forall k, l | Cell(k, l) && b[k][l] == 0
      ensures NoPeerHas(s, k, l, s[k][l])
    {
      if k == i && l == j {
        forall p, q | Cell(p, q) && Peer(i, j, p, q)
          ensures s[p][q] != num
        {
          if b[p][q] != 0 {
            assert placed[p][q] == b[p][q];
          } else {
            assert placed[p][q] == 0;
            assert NoPeerHas(s, p, q, s[p][q]);
            assert Peer(p, q, i, j);
          }
        }
      } else {
        assert placed[k][l] == 0;
      }
    }
  }

  // -----------------------------------------------------------------------
  // Completeness: if the board can be completed, the search succeeds.

  lemma {:induction false} SolveComplete(b: Board, s: Board)
    requires IsBoard(b) && IsBoard(s) && Completes(b, s)
    ensures Solve(b).solved
    decreases Zeros(b), 1, 0
  {
    match FirstEmpty(b)
    case None =>
    case Some((i, j)) => TryComplete(b, i, j, 1, s);
  }

  lemma {:induction false} TryComplete(b: Board, i: int, j: int, num: int, s: Board)
    requires IsBoard(b) && Cell(i, j) && b[i][j] == 0 && 1 <= num <= 10
    requires IsBoard(s) && Completes(b, s)
    requires num <= s[i][j]
    ensures TryFrom(b, i, j, num).solved
    decreases Zeros(b), 0, 10 - num
  {
    if num == s[i][j] {
      CompletionDigitIsValid(b, i, j, s);
      ZerosFill(b, i, j, num);
      SolveComplete(Update(b, i, j, num), s);
    } else {
      TryComplete(b, i, j, num + 1, s);
      TryFromStep(b, i, j, num);
    }
  }

  /** A completion's digit at an empty cell passes `is_valid`, and placing it
      leaves a board that the same completion still completes. */
  lemma CompletionDigitIsValid(b: Board, i: int, j: int, s: Board)
    requires IsBoard(b) && Cell(i, j) && b[i][j] == 0
    requires IsBoard(s) && Completes(b, s)
    ensures IsValid(b, i, j, s[i][j])
    ensures Completes(Update(b, i, j, s[i][j]), s)
  {
    var v := s[i][j];
    assert 1 <= v <= 9;
    forall p, q | Cell(p, q) && Peer(i, j, p, q)
      ensures b[p][q] != v
    {
      assert NoPeerHas(s, i, j, v);
    }
    IsValidIffNoPeer(b, i, j, v);
  }

  // -----------------------------------------------------------------------
  // The two together.

  /** For a board whose givens are consistent, `solve_sudoku` returns True
      exactly when a completion exists, and the board it returns is one. */
  lemma SolveCorrect(b: Board)
    requires IsBoard(b) && GivensConsistent(b)
    ensures Solve(b).solved <==> exists s :: IsBoard(s) && Completes(b, s)
    ensures Solve(b).solved ==> Completes(b, Solve(b).board)
  {
    var r := Solve(b);
    if r.solved {
      SolveSound(b);
      var s := r.board;
      forall i, j | Cell(i, j)
        ensures 1 <= s[i][j] <= 9 && NoPeerHas(s, i, j, s[i][j])
      {
        if b[i][j] == 0 {
        } else {
          assert NoPeerHas(b, i, j, b[i][j]);
          forall k, l | Cell(k, l) && Peer(i, j, k, l)
            ensures s[k][l] != s[i][j]
          {
            if b[k][l] == 0 {
              assert NoPeerHas(s, k, l, s[k][l]);
              assert Peer(k, l, i, j);
            }
          }
        }
      }
      assert Completes(b, s);
    }
    if exists s :: IsBoard(s) && Completes(b, s) {
      var s :| IsBoard(s) && Completes(b, s);
      SolveComplete(b, s);
    }
  }

  /** The timed re-run in the source calls the solver on the board it has
      already solved: with no empty cell it returns True and changes
      nothing. */
  lemma SolveFullBoard(b: Board)
    requires IsBoard(b) && Full(b)
    ensures Solve(b) == Outcome(true, b)
  {
  }

  /** The solver never checks givens against each other: a full board with
      the digit 5 twice in its first row is reported solved. */
  lemma DuplicateGivensAccepted()
    ensures IsBoard(DuplicateRow) && !GivensConsistent(DuplicateRow)
    ensures Solve(DuplicateRow).solved
  {
    assert DuplicateRow[0][0] == DuplicateRow[0][1] == 5;
    assert Peer(0, 0, 0, 1);
    SolveFullBoard(DuplicateRow);
  }

  const DuplicateRow: Board := [
    [5, 5, 5, 5, 5, 5, 5, 5, 5],
    [5, 5, 5, 5, 5, 5, 5, 5, 5],
    [5, 5, 5, 5, 5, 5, 5, 5, 5],
    [5, 5, 5, 5, 5, 5, 5, 5, 5],
    [5, 5, 5, 5, 5, 5, 5, 5, 5],
    [5, 5, 5, 5, 5, 5, 5, 5, 5],
    [5, 5, 5, 5, 5, 5, 5, 5, 5],
    [5, 5, 5, 5, 5, 5, 5, 5, 5],
    [5, 5, 5, 5, 5, 5, 5, 5, 5]]
}

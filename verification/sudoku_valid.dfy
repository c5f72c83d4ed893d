/** `is_valid` of `sudoku_solver.py`: may `num` be written at (row, col)?
    Each scan is the source's `for` loop, written as a recursive function
    over the loop index; returning False at the first hit and scanning to the
    end give the same answer, so the early returns need no separate model.
    The board is a value, so the check cannot modify it. */
module SudokuValid {
  import opened SudokuBoard

  /** First index of the 3x3 band that contains index x
      (`row - row % 3` in the source). */
  function BoxStart(x: int): (s: int)
    requires 0 <= x < 9
    ensures s % 3 == 0 && s <= x < s + 3
    ensures s / 3 == x / 3
  {
    x - x % 3
  }

  /** The row loop from column x on: no cell board[row][x..8] equals num. */
  function RowClearFrom(b: Board, row: int, num: int, x: nat): (r: bool)
    requires IsBoard(b) && 0 <= row < 9 && x <= 9
    ensures r <==> forall l :: x <= l < 9 ==> b[row][l] != num
    decreases 9 - x
  {
    x == 9 || (b[row][x] != num && RowClearFrom(b, row, num, x + 1))
  }

  /** The column loop from row x on: no cell board[x..8][col] equals num. */
  function ColClearFrom(b: Board, col: int, num: int, x: nat): (r: bool)
    requires IsBoard(b) && 0 <= col < 9 && x <= 9
    ensures r <==> forall k :: x <= k < 9 ==> b[k][col] != num
    decreases 9 - x
  {
    x == 9 || (b[x][col] != num && ColClearFrom(b, col, num, x + 1))
  }

  /** The inner box loop over j: no cell board[row][startCol + j..2] equals num. */
  function BoxRowClearFrom(b: Board, row: int, startCol: int, num: int, j: nat): (r: bool)
    requires IsBoard(b) && 0 <= row < 9 && 0 <= startCol <= 6 && j <= 3
    ensures r <==> forall l :: startCol + j <= l < startCol + 3 ==> b[row][l] != num
    decreases 3 - j
  {
    j == 3 || (b[row][startCol + j] != num && BoxRowClearFrom(b, row, startCol, num, j + 1))
  }

  /** The outer box loop over i: rows startRow + i..2 of the box hold no num. */
  function BoxClearFrom(b: Board, startRow: int, startCol: int, num: int, i: nat): (r: bool)
    requires IsBoard(b) && 0 <= startRow <= 6 && 0 <= startCol <= 6 && i <= 3
    ensures r <==> forall k, l :: startRow + i <= k < startRow + 3 && startCol <= l < startCol + 3 ==> b[k][l] != num
    decreases 3 - i
  {
    i == 3 || (BoxRowClearFrom(b, startRow + i, startCol, num, 0) && BoxClearFrom(b, startRow, startCol, num, i + 1))
  }

  /** `is_valid(board, row, col, num)`: True exactly when num occurs neither
      in row `row`, nor in column `col`, nor in the 3x3 box whose top-left
      cell is (row - row % 3, col - col % 3). */
  function IsValid(b: Board, row: int, col: int, num: int): (r: bool)
    requires IsBoard(b) && Cell(row, col)
    ensures r <==>
      && (forall l :: 0 <= l < 9 ==> b[row][l] != num)
      && (forall k :: 0 <= k < 9 ==> b[k][col] != num)
      && (forall k, l :: BoxStart(row) <= k < BoxStart(row) + 3 && BoxStart(col) <= l < BoxStart(col) + 3 ==> b[k][l] != num)
  {
    RowClearFrom(b, row, num, 0)
    && ColClearFrom(b, col, num, 0)
    && BoxClearFrom(b, BoxStart(row), BoxStart(col), num, 0)
  }

  /** The three scans together cover the cell itself and exactly its twenty
      peers: `is_valid` holds iff num is neither in the cell nor in any peer. */
  lemma IsValidIffNoPeer(b: Board, row: int, col: int, num: int)
    requires IsBoard(b) && Cell(row, col)
    ensures IsValid(b, row, col, num) <==> b[row][col] != num && NoPeerHas(b, row, col, num)
  {
    if IsValid(b, row, col, num) {
      forall k, l | Cell(k, l) && Peer(row, col, k, l)
        ensures b[k][l] != num
      {
        if k != row && l != col {
          assert BoxStart(row) <= k < BoxStart(row) + 3;
          assert BoxStart(col) <= l < BoxStart(col) + 3;
        }
      }
    }
    if b[row][col] != num && NoPeerHas(b, row, col, num) {
      forall k, l | BoxStart(row) <= k < BoxStart(row) + 3 && BoxStart(col) <= l < BoxStart(col) + 3
        ensures b[k][l] != num
      {
        assert k / 3 == row / 3 && l / 3 == col / 3;
        if k != row || l != col {
          assert Peer(row, col, k, l);
        }
      }
      forall l | 0 <= l < 9
        ensures b[row][l] != num
      {
        if l != col {
          assert Peer(row, col, row, l);
        }
      }
      forall k | 0 <= k < 9
        ensures b[k][col] != num
      {
        if k != row {
          assert Peer(row, col, k, col);
        }
      }
    }
  }
}

/** What every number game shares (AbstractNumberGame): a fresh 4 x 5 grid of
    empty cells, clearing the grid, the range of the drawn numbers, and the
    rule deciding whether a number may go into a row. */
module AbstractNumberGame {
  import opened Grids

  /** generateNextNumber draws random.nextInt(1000) + 1. The model takes the
      drawn value as a parameter and keeps only its range. */
  predicate IsDrawn(n: int)
  {
    1 <= n <= 1000
  }

  /** The grid the constructor allocates: 4 x 5 cells, then cleared. */
  method NewGrid() returns (g: array2<int>)
    ensures fresh(g)
    ensures g.Length0 == Rows && g.Length1 == Cols
    ensures Contents(g) == EmptyBoard(Rows, Cols)
  {
    g := new int[Rows, Cols];
    ResetGrid(g);
  }

  /** resetGrid: every cell becomes 0; the dimensions stay. */
  method ResetGrid(g: array2<int>)
    modifies g
    ensures Contents(g) == EmptyBoard(g.Length0, g.Length1)
  {
    for r := 0 to g.Length0
      invariant forall i, j :: 0 <= i < r && 0 <= j < g.Length1 ==> g[i, j] == 0
    {
      for c := 0 to g.Length1
        invariant forall i, j :: 0 <= i < r && 0 <= j < g.Length1 ==> g[i, j] == 0
        invariant forall j :: 0 <= j < c ==> g[r, j] == 0
      {
        g[r, c] := 0;
      }
    }
    ContentsAre(g, EmptyBoard(g.Length0, g.Length1));
  }

  /** The placement rule: the row still has an empty cell, and no filled cell
      of an earlier row holds a larger number. Filled cells of the row itself
      and of later rows play no part. */
  predicate CanPlace(b: Board, number: int, row: nat)
    requires row < |b|
  {
    && HasEmpty(b[row])
    && forall r, c :: 0 <= r < row && 0 <= c < |b[r]| ==> !(b[r][c] > 0 && b[r][c] > number)
  }

  /** canPlaceNumber: searches the row for an empty cell and, on the first one,
      scans every cell of the earlier rows. It changes nothing. */
  method CanPlaceNumber(grid: array2<int>, number: int, row: nat) returns (ok: bool)
    requires row < grid.Length0
    ensures ok == CanPlace(Contents(grid), number, row)
    ensures row == 0 ==> (ok <==> HasEmpty(Contents(grid)[0]))
  {
    ghost var b := Contents(grid);
    for col := 0 to grid.Length1
      invariant forall j :: 0 <= j < col ==> grid[row, j] != 0
    {
      if grid[row, col] == 0 {
        assert b[row][col] == 0;
        for prevRow := 0 to row
          invariant forall r, c :: 0 <= r < prevRow && 0 <= c < grid.Length1 ==> !(grid[r, c] > 0 && grid[r, c] > number)
        {
          for prevCol := 0 to grid.Length1
            invariant forall r, c :: 0 <= r < prevRow && 0 <= c < grid.Length1 ==> !(grid[r, c] > 0 && grid[r, c] > number)
            invariant forall c :: 0 <= c < prevCol ==> !(grid[prevRow, c] > 0 && grid[prevRow, c] > number)
          {
            if grid[prevRow, prevCol] > 0 && grid[prevRow, prevCol] > number {
              assert b[prevRow][prevCol] == grid[prevRow, prevCol];
              return false;
            }
          }
        }
        return true;
      }
    }
    assert forall j :: 0 <= j < |b[row]| ==> b[row][j] == grid[row, j];
    return false;
  }

  /** A number the rule accepts in a row, every larger number is accepted there
      too. */
  lemma CanPlaceMonotone(b: Board, number: int, larger: int, row: nat)
    requires row < |b| && number <= larger
    requires CanPlace(b, number, row)
    ensures CanPlace(b, larger, row)
  {
  }

  /** The rule reads only the earlier rows and whether the row has an empty
      cell: two boards that agree there get the same answer, whatever their
      other cells hold. */
  lemma CanPlaceReadsEarlierRowsOnly(b1: Board, b2: Board, number: int, row: nat)
    requires row < |b1| && row < |b2|
    requires b1[..row] == b2[..row]
    requires HasEmpty(b1[row]) == HasEmpty(b2[row])
    ensures CanPlace(b1, number, row) == CanPlace(b2, number, row)
  {
    assert forall r :: 0 <= r < row ==> b1[r] == b1[..row][r] && b2[r] == b2[..row][r];
  }

  /** On a cleared grid every row accepts every number, and no cell is
      filled. */
  lemma EmptyBoardAcceptsAll(number: int, row: nat)
    requires row < Rows
    ensures CanPlace(EmptyBoard(Rows, Cols), number, row)
    ensures Filled(EmptyBoard(Rows, Cols)) == 0
  {
    var b := EmptyBoard(Rows, Cols);
    assert b[row][0] == 0;
    EmptyBoardFilled(Rows, Cols);
  }
}

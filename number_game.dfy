/** The console number game (NumberGame): numbers are placed one at a time
    into a chosen row of the 4 x 5 grid; the game is lost when the placement
    rule refuses a number and won when the grid is full and ascending. */
module NumberGame {
  import opened Grids
  import opened AbstractNumberGame

  /** What one pass of the playGame loop ends in. */
  datatype Outcome = InvalidRow | Lost | Won | Continue

  /** The state a console game keeps between turns. */
  datatype Console = Console(board: Board, current: int, totalGames: int, gamesWon: int, placements: int)

  /** isGameComplete's verdict: every cell holds a positive number and the
      numbers never decrease in row-major order. */
  predicate Complete(b: Board)
  {
    && (forall r, c :: 0 <= r < |b| && 0 <= c < |b[r]| ==> b[r][c] > 0)
    && (forall r1, c1, r2, c2 ::
          0 <= r1 < |b| && 0 <= c1 < |b[r1]| && 0 <= r2 < |b| && 0 <= c2 < |b[r2]| && Before(r1, c1, r2, c2) ==>
            b[r1][c1] <= b[r2][c2])
  }

  /** placeNumberInRow on values: the leftmost empty cell of the row receives
      the number; a full row is left as it is. */
  function PlaceInRow(b: Board, row: nat, number: int): Board
    requires row < |b|
  {
    var k := FirstEmpty(b[row]);
    if k < |b[row]| then b[row := b[row][k := number]] else b
  }

  /** updateGameStats on values: one more game, one more win when won, and
      every filled cell counted as a successful placement. */
  function Stats(s: Console, won: bool): Console
  {
    s.(totalGames := s.totalGames + 1,
       gamesWon := if won then s.gamesWon + 1 else s.gamesWon,
       placements := s.placements + Filled(s.board))
  }

  /** One pass of the playGame loop after a row has been read: an out-of-range
      row is refused; a number the rule refuses loses the game; otherwise it is
      placed, and the game is won if the grid is complete, or the next number
      (drawn) becomes current. */
  function Turn(s: Console, row: int, drawn: int): (Outcome, Console)
    requires |s.board| == Rows
  {
    if row < 0 || row > 3 then (InvalidRow, s)
    else if CanPlace(s.board, s.current, row) then
      var placed := s.(board := PlaceInRow(s.board, row, s.current));
      if Complete(placed.board) then (Won, Stats(placed, true))
      else (Continue, placed.(current := drawn))
    else (Lost, Stats(s, false))
  }

  /** The rightmost non-zero value of a row, or 0 when there is none. */
  function LastFilled(s: seq<int>): int
  {
    if s == [] then 0
    else if s[|s| - 1] != 0 then s[|s| - 1]
    else LastFilled(s[..|s| - 1])
  }

  /** What isGameComplete's first pass has checked of rows 0..n-1: each cell
      is positive and each row ascends. */
  ghost predicate RowsAscending(b: Board, n: int)
  {
    && (forall r, c :: 0 <= r < n && r < |b| && 0 <= c < |b[r]| ==> b[r][c] > 0)
    && (forall r, c1, c2 :: 0 <= r < n && r < |b| && 0 <= c1 < c2 < |b[r]| ==> b[r][c1] <= b[r][c2])
  }

  /** Rows 0..n-1 ascend in row-major order. */
  ghost predicate SortedAbove(b: Board, n: int)
  {
    forall r1, c1, r2, c2 ::
      0 <= r1 < n && r1 < |b| && 0 <= c1 < |b[r1]| && 0 <= r2 < n && r2 < |b| && 0 <= c2 < |b[r2]| && Before(r1, c1, r2, c2) ==>
        b[r1][c1] <= b[r2][c2]
  }

  /** The second pass's step: an ascending row that starts no lower than the
      last cell of the row before extends the ascending prefix. */
  lemma JoinRow(b: Board, row: nat)
    requires Shaped(b) && row < Rows
    requires RowsAscending(b, Rows) && SortedAbove(b, row)
    requires row > 0 ==> b[row - 1][Cols - 1] <= b[row][0]
    ensures SortedAbove(b, row + 1)
  {
    forall r1, c1, r2, c2 |
      0 <= r1 <= row && 0 <= c1 < Cols && 0 <= r2 <= row && 0 <= c2 < Cols && Before(r1, c1, r2, c2)
      ensures b[r1][c1] <= b[r2][c2]
    {
      if r2 == row && r1 < row {
        assert r1 < row - 1 || c1 < Cols - 1 ==> Before(r1, c1, row - 1, Cols - 1);
        assert b[row][0] <= b[row][c2];
      }
    }
  }

  /** Both passes succeeding means the grid is complete, and a complete grid
      passes both. */
  lemma AscendingRowsComplete(b: Board)
    requires Shaped(b)
    ensures Complete(b) <==> RowsAscending(b, Rows) && SortedAbove(b, Rows)
  {
    if Complete(b) {
      forall r, c1, c2 | 0 <= r < Rows && r < |b| && 0 <= c1 < c2 < |b[r]|
        ensures b[r][c1] <= b[r][c2]
      {
        assert Before(r, c1, r, c2);
      }
      assert RowsAscending(b, Rows);
    }
    if RowsAscending(b, Rows) && SortedAbove(b, Rows) {
      forall r1, c1, r2, c2 |
        0 <= r1 < |b| && 0 <= c1 < |b[r1]| && 0 <= r2 < |b| && 0 <= c2 < |b[r2]| && Before(r1, c1, r2, c2)
        ensures b[r1][c1] <= b[r2][c2]
      {
      }
    }
  }

  /** A complete board is full. */
  lemma CompleteIsFull(b: Board)
    requires Complete(b)
    ensures IsFull(b)
  {
  }

  /** Placing a non-zero number into a row with an empty cell fills exactly one
      more cell, in that row and nowhere else; a full row is left as it is. */
  lemma PlaceInRowFillsOneCell(b: Board, row: nat, number: int)
    requires row < |b|
    ensures |PlaceInRow(b, row, number)| == |b|
    ensures forall r :: 0 <= r < |b| && r != row ==> PlaceInRow(b, row, number)[r] == b[r]
    ensures |PlaceInRow(b, row, number)[row]| == |b[row]|
    ensures !HasEmpty(b[row]) ==> PlaceInRow(b, row, number) == b
    ensures HasEmpty(b[row]) && number != 0 ==> Filled(PlaceInRow(b, row, number)) == Filled(b) + 1
  {
    var k := FirstEmpty(b[row]);
    if k < |b[row]| {
      FilledUpdate(b, row, k, number);
    }
  }

  /** A refused number ends the game as a loss: the grid and the current
      number stay, one more game is counted, no win, and the filled cells are
      added to the placements. */
  lemma TurnLost(s: Console, row: int, drawn: int)
    requires |s.board| == Rows
    requires Turn(s, row, drawn).0 == Lost
    ensures 0 <= row < Rows && !CanPlace(s.board, s.current, row)
    ensures var t := Turn(s, row, drawn).1;
            && t.board == s.board && t.current == s.current
            && t.totalGames == s.totalGames + 1 && t.gamesWon == s.gamesWon
            && t.placements == s.placements + Filled(s.board)
  {
  }

  /** A won game ends with a complete, hence full, grid: one more game and one
      more win are counted, and all 20 cells are added to the placements. */
  lemma TurnWon(s: Console, row: int, drawn: int)
    requires Shaped(s.board)
    requires Turn(s, row, drawn).0 == Won
    ensures var t := Turn(s, row, drawn).1;
            && Complete(t.board) && IsFull(t.board)
            && t.board == PlaceInRow(s.board, row, s.current)
            && t.totalGames == s.totalGames + 1 && t.gamesWon == s.gamesWon + 1
            && t.placements == s.placements + Rows * Cols
  {
    var b := PlaceInRow(s.board, row, s.current);
    PlaceInRowFillsOneCell(s.board, row, s.current);
    assert Shaped(b);
    CompleteIsFull(b);
    FilledBound(b);
    SizeOfRectangle(b, Cols);
  }

  /** A turn that goes on fills one more cell of a grid that was not full (so
      a game lasts at most 20 turns that place a number), keeps the counters,
      and makes the drawn number current. */
  lemma TurnContinue(s: Console, row: int, drawn: int)
    requires Shaped(s.board) && s.current != 0
    requires Turn(s, row, drawn).0 == Continue
    ensures var t := Turn(s, row, drawn).1;
            && Shaped(t.board)
            && Filled(s.board) < Rows * Cols
            && Filled(t.board) == Filled(s.board) + 1
            && t.current == drawn
            && t.totalGames == s.totalGames && t.gamesWon == s.gamesWon && t.placements == s.placements
  {
    PlaceInRowFillsOneCell(s.board, row, s.current);
    var b := PlaceInRow(s.board, row, s.current);
    assert Shaped(b);
    FilledBound(b);
    SizeOfRectangle(b, Cols);
  }

  /** The counters stay consistent over any turn: wins never exceed games
      and no counter goes negative. */
  lemma TurnKeepsCounters(s: Console, row: int, drawn: int)
    requires |s.board| == Rows
    requires 0 <= s.gamesWon <= s.totalGames && 0 <= s.placements
    ensures var t := Turn(s, row, drawn).1;
            0 <= t.gamesWon <= t.totalGames && s.placements <= t.placements
            && s.totalGames <= t.totalGames <= s.totalGames + 1
  {
  }

  /** The counting loop of updateGameStats: the number of non-zero cells. */
  method CountFilled(g: array2<int>) returns (successfulPlacements: nat)
    ensures successfulPlacements == Filled(Contents(g))
  {
    ghost var b := Contents(g);
    successfulPlacements := 0;
    for row := 0 to g.Length0
      invariant successfulPlacements == Filled(b[..row])
    {
      for col := 0 to g.Length1
        invariant successfulPlacements == Filled(b[..row]) + FilledInRow(b[row][..col])
      {
        assert b[row][..col + 1] == b[row][..col] + [g[row, col]];
        FilledInRowAppend(b[row][..col], g[row, col]);
        if g[row, col] != 0 {
          successfulPlacements := successfulPlacements + 1;
        }
      }
      assert b[row][..g.Length1] == b[row];
      assert b[..row + 1] == b[..row] + [b[row]];
      FilledAppend(b[..row], b[row]);
    }
    assert b[..g.Length0] == b;
  }

  /** The console game: the grid and counters of AbstractNumberGame. */
  class NumberGame {
    var grid: array2<int>
    var currentNumber: int
    var totalGames: int
    var gamesWon: int
    var totalSuccessfulPlacements: int

    /** The grid has its 4 x 5 shape. */
    predicate Valid()
      reads this
    {
      grid.Length0 == Rows && grid.Length1 == Cols
    }

    /** The fields as a value. */
    function State(): Console
      reads this, grid
    {
      Console(Contents(grid), currentNumber, totalGames, gamesWon, totalSuccessfulPlacements)
    }

    /** NumberGame(isGuiMode): a cleared 4 x 5 grid and zero counters; in
        console mode startGame also clears the grid again and draws the first
        number. */
    constructor(guiMode: bool, drawn: int)
      requires IsDrawn(drawn)
      ensures Valid() && fresh(grid)
      ensures State() == Console(EmptyBoard(Rows, Cols), if guiMode then 0 else drawn, 0, 0, 0)
    {
      var g := NewGrid();
      grid := g;
      currentNumber := 0;
      totalGames := 0;
      gamesWon := 0;
      totalSuccessfulPlacements := 0;
      new;
      if !guiMode {
        ResetGame(drawn);
      }
    }

    /** resetGame: a cleared grid and a newly drawn current number. */
    method ResetGame(drawn: int)
      requires Valid() && IsDrawn(drawn)
      modifies this, grid
      ensures grid == old(grid) && Valid()
      ensures State() == old(State()).(board := EmptyBoard(Rows, Cols), current := drawn)
    {
      ResetGrid(grid);
      currentNumber := drawn;
    }

    /** isGameComplete: a first pass checks that every row is filled and
        ascending from 0, a second that each row starts no lower than the last
        filled cell of the row before. */
    method IsGameComplete() returns (complete: bool)
      requires Valid()
      ensures complete == Complete(Contents(grid))
    {
      AscendingRowsComplete(Contents(grid));
      var rowsAscending := RowsFilledAscending();
      if !rowsAscending {
        return false;
      }
      complete := RowsJoinAscending();
    }

    /** isGameComplete's second pass, reached once every row is filled and
        ascends: each row starts no lower than the last filled cell of the row
        before (0 before the first row). */
    method RowsJoinAscending() returns (ok: bool)
      requires Valid() && RowsAscending(Contents(grid), Rows)
      ensures ok == SortedAbove(Contents(grid), Rows)
    {
      ghost var b := Contents(grid);
      assert forall r, c :: 0 <= r < Rows && 0 <= c < Cols ==> b[r][c] == grid[r, c];
      var previousRowLastNumber := 0;
      for row := 0 to grid.Length0
        invariant previousRowLastNumber == if row == 0 then 0 else b[row - 1][Cols - 1]
        invariant SortedAbove(b, row)
      {
        if grid[row, 0] < previousRowLastNumber {
          assert Before(row - 1, Cols - 1, row, 0) && b[row][0] < b[row - 1][Cols - 1];
          return false;
        }
        var lastNonZeroInRow := LastNonZeroInRow(row);
        assert lastNonZeroInRow == b[row][Cols - 1] by {
          assert b[row] == b[row][..Cols - 1] + [b[row][Cols - 1]];
        }
        JoinRow(b, row);
        previousRowLastNumber := lastNonZeroInRow;
      }
      return true;
    }

    /** isGameComplete's first pass: every row is filled and ascends from 0. */
    method RowsFilledAscending() returns (ok: bool)
      requires Valid()
      ensures ok == RowsAscending(Contents(grid), Rows)
    {
      ghost var b := Contents(grid);
      assert forall r, c :: 0 <= r < Rows && 0 <= c < Cols ==> b[r][c] == grid[r, c];
      for row := 0 to grid.Length0
        invariant RowsAscending(b, row)
      {
        var lastNumber := 0;
        for col := 0 to grid.Length1
          invariant forall c :: 0 <= c < col ==> b[row][c] > 0
          invariant forall c1, c2 :: 0 <= c1 < c2 < col ==> b[row][c1] <= b[row][c2]
          invariant lastNumber == if col == 0 then 0 else b[row][col - 1]
        {
          if grid[row, col] == 0 {
            return false;
          }
          if grid[row, col] < lastNumber {
            return false;
          }
          lastNumber := grid[row, col];
        }
      }
      return true;
    }

    /** The backward scan of isGameComplete's second pass: the value of the
        rightmost filled cell of the row, or 0 when the row is empty. */
    method LastNonZeroInRow(row: nat) returns (lastNonZero: int)
      requires Valid() && row < Rows
      ensures lastNonZero == LastFilled(Contents(grid)[row])
    {
      ghost var s := Contents(grid)[row];
      lastNonZero := 0;
      var col := grid.Length1 - 1;
      assert s[..col + 1] == s;
      while col >= 0
        invariant -1 <= col < Cols
        invariant LastFilled(s) == LastFilled(s[..col + 1])
      {
        if grid[row, col] != 0 {
          lastNonZero := grid[row, col];
          break;
        }
        assert s[..col] == s[..col + 1][..col];
        col := col - 1;
      }
    }

    /** placeNumberInRow: the current number goes into the leftmost empty cell
        of the row, and nothing else changes. */
    method PlaceNumberInRow(row: nat)
      requires Valid() && row < Rows
      modifies grid
      ensures Contents(grid) == PlaceInRow(old(Contents(grid)), row, currentNumber)
    {
      ghost var b := Contents(grid);
      for col := 0 to grid.Length1
        invariant forall r, c :: 0 <= r < Rows && 0 <= c < Cols ==> grid[r, c] == b[r][c]
        invariant forall j :: 0 <= j < col ==> b[row][j] != 0
      {
        if grid[row, col] == 0 {
          grid[row, col] := currentNumber;
          assert FirstEmpty(b[row]) == col;
          ContentsAre(grid, b[row := b[row][col := currentNumber]]);
          return;
        }
      }
      ContentsAre(grid, b);
    }

    /** updateGameStats: counts the game, the win, and the filled cells. */
    method UpdateGameStats(won: bool)
      requires Valid()
      modifies this
      ensures grid == old(grid)
      ensures State() == Stats(old(State()), won)
    {
      totalGames := totalGames + 1;
      if won {
        gamesWon := gamesWon + 1;
      }
      var successfulPlacements := CountFilled(grid);
      totalSuccessfulPlacements := totalSuccessfulPlacements + successfulPlacements;
    }

    /** One pass of the playGame loop once a row has been read, with the
        number drawn for the next turn as a parameter. */
    method PlayTurn(row: int, drawn: int) returns (outcome: Outcome)
      requires Valid() && IsDrawn(drawn)
      modifies this, grid
      ensures grid == old(grid) && Valid()
      ensures (outcome, State()) == Turn(old(State()), row, drawn)
    {
      if row < 0 || row > 3 {
        return InvalidRow;
      }
      var ok := CanPlaceNumber(grid, currentNumber, row);
      if ok {
        PlaceNumberInRow(row);
        var complete := IsGameComplete();
        if complete {
          UpdateGameStats(true);
          return Won;
        }
        currentNumber := drawn;
        return Continue;
      } else {
        UpdateGameStats(false);
        return Lost;
      }
    }
  }
}

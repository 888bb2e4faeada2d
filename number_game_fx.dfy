/** The JavaFX number game (NumberGameFX): twenty numbers are drawn into a
    queue when a game starts; the player clicks any empty cell to place the
    current number, which is then checked against the numbers placed so far. */
module NumberGameFx {
  import opened Grids
  import opened AbstractNumberGame
  import NumberGame

  /** The state the game keeps between clicks. */
  datatype Fx = Fx(board: Board, queue: seq<int>, current: int, totalGames: int, gamesWon: int, placements: int)

  /** isPlacementValid visits a row from the left up to its first empty
      cell. */
  predicate Visited(b: Board, r: int, c: int)
  {
    0 <= r < |b| && 0 <= c < FirstEmpty(b[r])
  }

  /** isPlacementValid's verdict for rows 0..row: the visited values, read row
      by row, are not negative and never decrease. Cells after a row's first
      empty cell and rows after row are not looked at. */
  predicate PlacementOrdered(b: Board, row: int)
  {
    && (forall r, c :: 0 <= r <= row && r < |b| && 0 <= c < FirstEmpty(b[r]) ==> 0 <= b[r][c])
    && (forall r1, c1, r2, c2 ::
          && 0 <= r1 <= row && r1 < |b| && 0 <= c1 < FirstEmpty(b[r1])
          && 0 <= r2 <= row && r2 < |b| && 0 <= c2 < FirstEmpty(b[r2])
          && Before(r1, c1, r2, c2)
          ==> b[r1][c1] <= b[r2][c2])
  }

  /** A visited cell that comes before (r, c) in row-major order. */
  predicate SeenBefore(b: Board, r: int, c: int, r': int, c': int)
  {
    Visited(b, r', c') && Before(r', c', r, c)
  }

  /** What isPlacementValid knows on reaching cell (r, c) with previous the
      value it holds: previous is 0 before the first visited cell and the value
      of the last visited cell (pr, pc) after it; every visited cell so far is
      at least 0 and at most previous; and the visited cells so far ascend. */
  ghost predicate ScanState(b: Board, r: int, c: int, previous: int, pr: int, pc: int)
  {
    && (pr == -1 ==> previous == 0)
    && (pr != -1 ==> SeenBefore(b, r, c, pr, pc) && b[pr][pc] == previous)
    && (forall r', c' :: SeenBefore(b, r, c, r', c') ==> 0 <= b[r'][c'] <= previous)
    && (forall r1, c1, r2, c2 ::
          SeenBefore(b, r, c, r1, c1) && SeenBefore(b, r, c, r2, c2) && Before(r1, c1, r2, c2) ==>
            b[r1][c1] <= b[r2][c2])
  }

  /** Nothing is visited before the first cell. */
  lemma ScanStart(b: Board)
    ensures ScanState(b, 0, 0, 0, -1, -1)
  {
  }

  /** Visiting a cell no smaller than the previous value keeps the scan
      ordered, with that cell as the new previous one. */
  lemma ScanCell(b: Board, r: int, c: int, previous: int, pr: int, pc: int)
    requires ScanState(b, r, c, previous, pr, pc)
    requires Visited(b, r, c) && previous <= b[r][c]
    ensures ScanState(b, r, c + 1, b[r][c], r, c)
  {
    forall r', c' | SeenBefore(b, r, c + 1, r', c')
      ensures 0 <= b[r'][c'] <= b[r][c]
    {
      if (r', c') != (r, c) {
        assert SeenBefore(b, r, c, r', c');
      }
    }
    forall r1, c1, r2, c2 | SeenBefore(b, r, c + 1, r1, c1) && SeenBefore(b, r, c + 1, r2, c2) && Before(r1, c1, r2, c2)
      ensures b[r1][c1] <= b[r2][c2]
    {
      assert SeenBefore(b, r, c, r1, c1);
      if (r2, c2) != (r, c) {
        assert SeenBefore(b, r, c, r2, c2);
      }
    }
  }

  /** At a row's first empty cell the scan moves on to the next row: the
      cells seen so far are the same. */
  lemma ScanRow(b: Board, r: int, previous: int, pr: int, pc: int)
    requires 0 <= r < |b|
    requires ScanState(b, r, FirstEmpty(b[r]), previous, pr, pc)
    ensures ScanState(b, r + 1, 0, previous, pr, pc)
  {
    assert forall r', c' :: SeenBefore(b, r + 1, 0, r', c') ==> SeenBefore(b, r, FirstEmpty(b[r]), r', c');
  }

  /** A visited cell below the previous value refutes the placement check. */
  lemma ScanFails(b: Board, row: int, r: int, c: int, previous: int, pr: int, pc: int)
    requires ScanState(b, r, c, previous, pr, pc)
    requires r <= row && Visited(b, r, c) && b[r][c] < previous
    ensures !PlacementOrdered(b, row)
  {
    if pr != -1 {
      assert Before(pr, pc, r, c) && pr <= row;
    }
  }

  /** A scan that got past row row has established the placement check. */
  lemma ScanDone(b: Board, row: int, previous: int, pr: int, pc: int)
    requires ScanState(b, row + 1, 0, previous, pr, pc)
    ensures PlacementOrdered(b, row)
  {
    forall r, c | 0 <= r <= row && r < |b| && 0 <= c < FirstEmpty(b[r])
      ensures 0 <= b[r][c]
    {
      assert SeenBefore(b, row + 1, 0, r, c);
    }
    forall r1, c1, r2, c2 |
      && 0 <= r1 <= row && r1 < |b| && 0 <= c1 < FirstEmpty(b[r1])
      && 0 <= r2 <= row && r2 < |b| && 0 <= c2 < FirstEmpty(b[r2])
      && Before(r1, c1, r2, c2)
      ensures b[r1][c1] <= b[r2][c2]
    {
      assert SeenBefore(b, row + 1, 0, r1, c1) && SeenBefore(b, row + 1, 0, r2, c2);
    }
  }

  /** displayNextNumber on values: the head of a non-empty queue becomes the
      current number; an empty queue changes nothing. */
  function NextNumber(s: Fx): (t: Fx)
    ensures s.queue == [] ==> t == s
    ensures s.queue != [] ==> [t.current] + t.queue == s.queue
    ensures t.board == s.board && t.totalGames == s.totalGames
    ensures t.gamesWon == s.gamesWon && t.placements == s.placements
  {
    if s.queue == [] then s else s.(current := s.queue[0], queue := s.queue[1..])
  }

  /** handleCellClick on values, with the last row the placement check looks
      at as a parameter. A click on a filled cell, or with no current number,
      does nothing. Otherwise the current number is written into the cell; an
      out-of-order grid counts a lost game and keeps the number in the grid; an
      ordered grid counts a successful placement and then a win if the grid is
      full, else takes the next number from the queue. */
  function ClickChecking(s: Fx, row: nat, col: nat, lastChecked: int): Fx
    requires Shaped(s.board) && row < Rows && col < Cols
  {
    if s.board[row][col] != 0 || s.current == 0 then s
    else
      var b := s.board[row := s.board[row][col := s.current]];
      if !PlacementOrdered(b, lastChecked) then s.(board := b, totalGames := s.totalGames + 1)
      else if IsFull(b) then s.(board := b, placements := s.placements + 1, gamesWon := s.gamesWon + 1)
      else NextNumber(s.(board := b, placements := s.placements + 1))
  }

  /** handleCellClick as written: the check stops at the clicked row. */
  function Click(s: Fx, row: nat, col: nat): Fx
    requires Shaped(s.board) && row < Rows && col < Cols
  {
    ClickChecking(s, row, col, row)
  }

  /** handleCellClick with the check over every row, as the source's comment
      "The numbers must be in ascending order across the grid" asks. */
  function CheckedClick(s: Fx, row: nat, col: nat): Fx
    requires Shaped(s.board) && row < Rows && col < Cols
  {
    ClickChecking(s, row, col, Rows - 1)
  }

  /** A click on an empty cell with a number to place, by the outcome of the
      placement check and of the fullness test. */
  lemma ClickOnEmptyCell(s: Fx, row: nat, col: nat, b: Board)
    requires Shaped(s.board) && row < Rows && col < Cols
    requires s.board[row][col] == 0 && s.current != 0
    requires b == s.board[row := s.board[row][col := s.current]]
    ensures !PlacementOrdered(b, row) ==> Click(s, row, col) == s.(board := b, totalGames := s.totalGames + 1)
    ensures PlacementOrdered(b, row) && IsFull(b) ==>
              Click(s, row, col) == s.(board := b, placements := s.placements + 1, gamesWon := s.gamesWon + 1)
    ensures PlacementOrdered(b, row) && !IsFull(b) ==>
              Click(s, row, col) == NextNumber(s.(board := b, placements := s.placements + 1))
  {
  }

  /** A click on a filled cell, or with no number to place, changes nothing:
      not the grid, not the queue, not the current number, not a counter. */
  lemma ClickIgnored(s: Fx, row: nat, col: nat, lastChecked: int)
    requires Shaped(s.board) && row < Rows && col < Cols
    requires s.board[row][col] != 0 || s.current == 0
    ensures ClickChecking(s, row, col, lastChecked) == s
  {
  }

  /** The state a running game keeps consistent: the 4 x 5 shape, drawn
      numbers in the queue and as the current number (0 before the first
      draw), no negative counter, and no more successful placements than
      filled cells. */
  predicate Consistent(s: Fx)
  {
    && Shaped(s.board)
    && (forall i :: 0 <= i < |s.queue| ==> IsDrawn(s.queue[i]))
    && (s.current == 0 || IsDrawn(s.current))
    && 0 <= s.totalGames && 0 <= s.gamesWon
    && 0 <= s.placements <= Filled(s.board)
  }

  /** A click fills at most the clicked cell: it fills it exactly when the
      cell was empty and there was a number to place, and leaves every other
      cell as it was. */
  lemma ClickFillsClickedCell(s: Fx, row: nat, col: nat, lastChecked: int)
    requires Shaped(s.board) && row < Rows && col < Cols
    ensures var t := ClickChecking(s, row, col, lastChecked);
            && Shaped(t.board)
            && (forall r, c :: 0 <= r < Rows && 0 <= c < Cols && (r, c) != (row, col) ==> t.board[r][c] == s.board[r][c])
            && Filled(t.board) == Filled(s.board) + (if s.board[row][col] == 0 && s.current != 0 then 1 else 0)
  {
    var t := ClickChecking(s, row, col, lastChecked);
    if s.board[row][col] == 0 && s.current != 0 {
      FilledUpdate(s.board, row, col, s.current);
      assert t.board == s.board[row := s.board[row][col := s.current]];
    }
  }

  /** Every click keeps a consistent game consistent. */
  lemma ClickKeepsConsistent(s: Fx, row: nat, col: nat, lastChecked: int)
    requires Consistent(s) && row < Rows && col < Cols
    ensures Consistent(ClickChecking(s, row, col, lastChecked))
  {
    ClickFillsClickedCell(s, row, col, lastChecked);
  }

  /** A click counts a win only when it fills the last empty cell and passes
      the placement check. */
  lemma ClickWinsOnlyOnFullGrid(s: Fx, row: nat, col: nat, lastChecked: int)
    requires Shaped(s.board) && row < Rows && col < Cols
    requires ClickChecking(s, row, col, lastChecked).gamesWon != s.gamesWon
    ensures var t := ClickChecking(s, row, col, lastChecked);
            && t.gamesWon == s.gamesWon + 1 && t.totalGames == s.totalGames
            && IsFull(t.board) && PlacementOrdered(t.board, lastChecked)
            && s.board[row][col] == 0 && t.board[row][col] == s.current
  {
  }

  /** On a full grid every cell is visited, so the check over all rows passes
      exactly when the grid is complete in the console game's sense. */
  lemma FullOrderedIsComplete(b: Board)
    requires Shaped(b) && IsFull(b)
    ensures PlacementOrdered(b, Rows - 1) <==> NumberGame.Complete(b)
  {
    forall r | 0 <= r < |b|
      ensures FirstEmpty(b[r]) == |b[r]|
    {
      assert forall c :: 0 <= c < |b[r]| ==> b[r][c] != 0;
    }
    if PlacementOrdered(b, Rows - 1) {
      assert forall r, c :: 0 <= r < |b| && 0 <= c < |b[r]| ==> Visited(b, r, c);
    }
  }

  /** With the check over every row, a win always leaves a complete grid. */
  lemma CheckedClickWinIsComplete(s: Fx, row: nat, col: nat)
    requires Shaped(s.board) && row < Rows && col < Cols
    requires CheckedClick(s, row, col).gamesWon != s.gamesWon
    ensures NumberGame.Complete(CheckedClick(s, row, col).board)
  {
    ClickWinsOnlyOnFullGrid(s, row, col, Rows - 1);
    ClickFillsClickedCell(s, row, col, Rows - 1);
    FullOrderedIsComplete(CheckedClick(s, row, col).board);
  }

  /** As written, the check stops at the clicked row, so filling the last
      empty cell in row 0 wins although row 0 holds larger numbers than the
      rows below it. */
  lemma WinOnUnorderedGrid()
    ensures var s := Fx([[500, 501, 502, 503, 0],
                         [100, 101, 102, 103, 104],
                         [105, 106, 107, 108, 109],
                         [110, 111, 112, 113, 114]], [], 504, 0, 0, 19);
            && Shaped(s.board)
            && Click(s, 0, 4).gamesWon == 1
            && !NumberGame.Complete(Click(s, 0, 4).board)
  {
    var s := Fx([[500, 501, 502, 503, 0],
                 [100, 101, 102, 103, 104],
                 [105, 106, 107, 108, 109],
                 [110, 111, 112, 113, 114]], [], 504, 0, 0, 19);
    var b := s.board[0 := s.board[0][4 := 504]];
    assert b[0] == [500, 501, 502, 503, 504];
    UnorderedFullBoard(b);
  }

  /** The board of that click once filled: full, ordered as far as row 0, but
      row 0 holds larger numbers than row 1. */
  lemma UnorderedFullBoard(b: Board)
    requires b == [[500, 501, 502, 503, 504],
                   [100, 101, 102, 103, 104],
                   [105, 106, 107, 108, 109],
                   [110, 111, 112, 113, 114]]
    ensures FirstEmpty(b[0]) == 5 && PlacementOrdered(b, 0)
    ensures IsFull(b) && !NumberGame.Complete(b)
  {
    assert FirstEmpty(b[0]) == 5;
    assert IsFull(b) by {
      forall r, c | 0 <= r < |b| && 0 <= c < |b[r]|
        ensures b[r][c] != 0
      {
        assert b[r][c] >= 100;
      }
    }
    assert Before(0, 0, 1, 0) && b[0][0] > b[1][0];
  }

  /** The JavaFX game's grid, queue and counters. */
  class NumberGameFx {
    var grid: array2<int>
    var numberQueue: seq<int>
    var totalGames: int
    var gamesWon: int
    var successfulPlacements: int
    var currentNumber: int

    /** The grid has its 4 x 5 shape. */
    predicate Valid()
      reads this
    {
      grid.Length0 == Rows && grid.Length1 == Cols
    }

    /** The fields as a value. */
    function State(): Fx
      reads this, grid
    {
      Fx(Contents(grid), numberQueue, currentNumber, totalGames, gamesWon, successfulPlacements)
    }

    /** The field initialisers: an empty 4 x 5 grid, an empty queue, and every
        counter and the current number at 0. */
    constructor()
      ensures Valid() && fresh(grid)
      ensures State() == Fx(EmptyBoard(Rows, Cols), [], 0, 0, 0, 0)
    {
      var g := new int[Rows, Cols]((_, _) => 0);
      ContentsAre(g, EmptyBoard(Rows, Cols));
      grid := g;
      numberQueue := [];
      totalGames := 0;
      gamesWon := 0;
      successfulPlacements := 0;
      currentNumber := 0;
    }

    /** resetGrid: every cell and the placement counter back to 0. */
    method ResetGrid()
      requires Valid()
      modifies this, grid
      ensures grid == old(grid) && Valid()
      ensures State() == old(State()).(board := EmptyBoard(Rows, Cols), placements := 0)
    {
      AbstractNumberGame.ResetGrid(grid);
      successfulPlacements := 0;
    }

    /** generateRandomNumbers: the queue is cleared and refilled with twenty
        drawn numbers, in drawing order. */
    method GenerateRandomNumbers(drawn: seq<int>)
      requires |drawn| == Rows * Cols && forall i :: 0 <= i < |drawn| ==> IsDrawn(drawn[i])
      modifies this
      ensures grid == old(grid)
      ensures State() == old(State()).(queue := drawn)
      ensures |numberQueue| == 20 && forall i :: 0 <= i < |numberQueue| ==> 1 <= numberQueue[i] <= 1000
    {
      var queue := [];
      for i := 0 to Rows * Cols
        invariant queue == drawn[..i]
      {
        queue := queue + [drawn[i]];
      }
      assert drawn[..Rows * Cols] == drawn;
      numberQueue := queue;
    }

    /** displayNextNumber: polls the queue into the current number. */
    method DisplayNextNumber()
      modifies this
      ensures grid == old(grid)
      ensures State() == NextNumber(old(State()))
    {
      if numberQueue == [] {
        return;
      }
      currentNumber := numberQueue[0];
      numberQueue := numberQueue[1..];
    }

    /** startNewGame: a cleared grid, twenty new numbers, and the first of them
        current. */
    method StartNewGame(drawn: seq<int>)
      requires Valid()
      requires |drawn| == Rows * Cols && forall i :: 0 <= i < |drawn| ==> IsDrawn(drawn[i])
      modifies this, grid
      ensures grid == old(grid) && Valid()
      ensures State() == Fx(EmptyBoard(Rows, Cols), drawn[1..], drawn[0], old(totalGames), old(gamesWon), 0)
    {
      ResetGrid();
      GenerateRandomNumbers(drawn);
      DisplayNextNumber();
    }

    /** isPlacementValid: walks rows 0..row, each from the left up to its first
        empty cell, and fails on the first value below the one visited before
        it (0 before the first). The column argument is not used. */
    method IsPlacementValid(row: nat, col: nat) returns (valid: bool)
      requires Valid() && row < Rows && col < Cols
      ensures valid == PlacementOrdered(Contents(grid), row)
    {
      ghost var b := Contents(grid);
      var previousNumber := 0;
      ghost var pr, pc := -1, -1;
      ScanStart(b);
      for r := 0 to row + 1
        invariant ScanState(b, r, 0, previousNumber, pr, pc)
      {
        var c := 0;
        while c < Cols
          invariant c <= FirstEmpty(b[r])
          invariant ScanState(b, r, c, previousNumber, pr, pc)
        {
          var current := grid[r, c];
          assert current == b[r][c];
          if current == 0 {
            break;
          }
          if current < previousNumber {
            ScanFails(b, row, r, c, previousNumber, pr, pc);
            return false;
          }
          ScanCell(b, r, c, previousNumber, pr, pc);
          previousNumber := current;
          pr, pc := r, c;
          c := c + 1;
        }
        assert c == FirstEmpty(b[r]);
        ScanRow(b, r, previousNumber, pr, pc);
      }
      ScanDone(b, row, previousNumber, pr, pc);
      return true;
    }

    /** isGridFull: no cell holds 0. */
    method IsGridFull() returns (full: bool)
      requires Valid()
      ensures full == IsFull(Contents(grid))
    {
      ghost var b := Contents(grid);
      for r := 0 to grid.Length0
        invariant forall i, j :: 0 <= i < r && 0 <= j < Cols ==> b[i][j] != 0
      {
        for c := 0 to grid.Length1
          invariant forall i, j :: 0 <= i < r && 0 <= j < Cols ==> b[i][j] != 0
          invariant forall j :: 0 <= j < c ==> b[r][j] != 0
        {
          if grid[r, c] == 0 {
            assert b[r][c] == 0;
            return false;
          }
        }
      }
      return true;
    }

    /** handleCellClick, grid and counter part. */
    method HandleCellClick(row: nat, col: nat)
      requires Valid() && row < Rows && col < Cols
      modifies this, grid
      ensures grid == old(grid) && Valid()
      ensures State() == Click(old(State()), row, col)
    {
      if grid[row, col] != 0 || currentNumber == 0 {
        assert Contents(grid)[row][col] == grid[row, col];
        return;
      }
      ghost var before := State();
      ghost var b := before.board[row := before.board[row][col := currentNumber]];
      assert before.board[row][col] == 0;
      ClickOnEmptyCell(before, row, col, b);
      grid[row, col] := currentNumber;
      ContentsAre(grid, b);
      CheckPlacement(row, col);
    }

    /** handleCellClick once the number is in its cell: a failed check ends
        the game as a loss; otherwise the placement counts and the game is won
        or goes on with the next number. */
    method CheckPlacement(row: nat, col: nat)
      requires Valid() && row < Rows && col < Cols
      modifies this
      ensures grid == old(grid) && Valid()
      ensures var s := old(State());
              && (!PlacementOrdered(s.board, row) ==> State() == s.(totalGames := s.totalGames + 1))
              && (PlacementOrdered(s.board, row) && IsFull(s.board) ==>
                    State() == s.(placements := s.placements + 1, gamesWon := s.gamesWon + 1))
              && (PlacementOrdered(s.board, row) && !IsFull(s.board) ==>
                    State() == NextNumber(s.(placements := s.placements + 1)))
    {
      var valid := IsPlacementValid(row, col);
      if !valid {
        totalGames := totalGames + 1;
        return;
      }
      successfulPlacements := successfulPlacements + 1;
      CompletePlacement();
    }

    /** The end of handleCellClick after a placement that passed the check:
        a win if the grid is full, else the next number. */
    method CompletePlacement()
      requires Valid()
      modifies this
      ensures grid == old(grid)
      ensures IsFull(Contents(grid)) ==> State() == old(State()).(gamesWon := old(gamesWon) + 1)
      ensures !IsFull(Contents(grid)) ==> State() == NextNumber(old(State()))
    {
      var full := IsGridFull();
      if full {
        gamesWon := gamesWon + 1;
      } else {
        DisplayNextNumber();
      }
    }
  }
}

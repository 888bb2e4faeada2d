/** The 4 x 5 board both number games are played on. The source keeps it in an
    int[][]; the model keeps it in an array2<int> and states properties of its
    contents, read as a sequence of rows. A cell holding 0 is empty. */
module Grids {

  const Rows: nat := 4
  const Cols: nat := 5

  /** A board's contents, top row first, each row left to right. */
  type Board = seq<seq<int>>

  /** Row r of the array, left to right. */
  function RowOf(g: array2<int>, r: nat): (s: seq<int>)
    reads g
    requires r < g.Length0
    ensures |s| == g.Length1
    ensures forall c :: 0 <= c < g.Length1 ==> s[c] == g[r, c]
  {
    seq(g.Length1, c requires 0 <= c < g.Length1 reads g => g[r, c])
  }

  /** The array's contents, row by row. */
  function Contents(g: array2<int>): (b: Board)
    reads g
    ensures |b| == g.Length0
    ensures forall r :: 0 <= r < g.Length0 ==> b[r] == RowOf(g, r)
  {
    seq(g.Length0, r requires 0 <= r < g.Length0 reads g => RowOf(g, r))
  }

  /** Two boards with the same rows lengths and cells are the same board. */
  lemma ContentsAre(g: array2<int>, b: Board)
    requires |b| == g.Length0
    requires forall r :: 0 <= r < |b| ==> |b[r]| == g.Length1
    requires forall r, c :: 0 <= r < g.Length0 && 0 <= c < g.Length1 ==> b[r][c] == g[r, c]
    ensures Contents(g) == b
  {
    var a := Contents(g);
    forall r | 0 <= r < |b|
      ensures a[r] == b[r]
    {
      assert a[r] == RowOf(g, r);
    }
  }

  /** The board has the game's 4 x 5 shape. */
  predicate Shaped(b: Board)
  {
    |b| == Rows && forall r :: 0 <= r < |b| ==> |b[r]| == Cols
  }

  /** A rows x cols board of empty cells. */
  function EmptyBoard(rows: nat, cols: nat): (b: Board)
    ensures |b| == rows
    ensures forall r :: 0 <= r < rows ==> b[r] == seq(cols, _ => 0)
  {
    seq(rows, _ => seq(cols, _ => 0))
  }

  /** No cell is empty. */
  predicate IsFull(b: Board)
  {
    forall r, c :: 0 <= r < |b| && 0 <= c < |b[r]| ==> b[r][c] != 0
  }

  /** The row has an empty cell. */
  predicate HasEmpty(s: seq<int>)
  {
    exists c :: 0 <= c < |s| && s[c] == 0
  }

  /** Cell (r1, c1) comes before cell (r2, c2) in row-major order. */
  predicate Before(r1: int, c1: int, r2: int, c2: int)
  {
    r1 < r2 || (r1 == r2 && c1 < c2)
  }

  /** The column of the leftmost empty cell of a row, or the row's length when
      the row is full. */
  function FirstEmpty(s: seq<int>): (k: nat)
    ensures k <= |s|
    ensures k < |s| ==> s[k] == 0
    ensures forall j :: 0 <= j < k ==> s[j] != 0
    ensures k == |s| <==> !HasEmpty(s)
  {
    if s == [] || s[0] == 0 then 0
    else
      var k := 1 + FirstEmpty(s[1..]);
      assert forall j :: 1 <= j < |s| ==> s[j] == s[1..][j - 1];
      k
  }

  /** Number of filled cells in a row. */
  function FilledInRow(s: seq<int>): nat
  {
    if s == [] then 0 else (if s[0] != 0 then 1 else 0) + FilledInRow(s[1..])
  }

  /** Number of filled cells on a board. */
  function Filled(b: Board): nat
  {
    if b == [] then 0 else FilledInRow(b[0]) + Filled(b[1..])
  }

  /** Number of cells on a board. */
  function Size(b: Board): nat
  {
    if b == [] then 0 else |b[0]| + Size(b[1..])
  }

  /** A row never has more filled cells than cells, and has as many exactly
      when it has no empty cell. */
  lemma {:induction false} FilledInRowBound(s: seq<int>)
    ensures FilledInRow(s) <= |s|
    ensures FilledInRow(s) == |s| <==> !HasEmpty(s)
  {
    if s != [] {
      FilledInRowBound(s[1..]);
      if HasEmpty(s[1..]) {
        var c :| 0 <= c < |s[1..]| && s[1..][c] == 0;
        assert s[c + 1] == 0;
      }
      if s[0] != 0 && HasEmpty(s) {
        var c :| 0 <= c < |s| && s[c] == 0;
        assert s[1..][c - 1] == 0;
      }
    }
  }

  /** A board never has more filled cells than cells, and has as many exactly
      when it is full. */
  lemma {:induction false} FilledBound(b: Board)
    ensures Filled(b) <= Size(b)
    ensures Filled(b) == Size(b) <==> IsFull(b)
  {
    if b != [] {
      FilledBound(b[1..]);
      FilledInRowBound(b[0]);
      assert forall r :: 1 <= r < |b| ==> b[r] == b[1..][r - 1];
      if !HasEmpty(b[0]) && IsFull(b[1..]) {
        forall r, c | 0 <= r < |b| && 0 <= c < |b[r]|
          ensures b[r][c] != 0
        {
          if r > 0 { assert b[1..][r - 1][c] == b[r][c]; }
        }
      }
      if HasEmpty(b[0]) {
        var c :| 0 <= c < |b[0]| && b[0][c] == 0;
        assert !IsFull(b);
      }
      if !IsFull(b[1..]) {
        var r, c :| 0 <= r < |b[1..]| && 0 <= c < |b[1..][r]| && b[1..][r][c] == 0;
        assert b[r + 1][c] == 0;
      }
    }
  }

  /** A board whose rows all have cols cells has |b| * cols cells; the game's
      board has 20. */
  lemma {:induction false} SizeOfRectangle(b: Board, cols: nat)
    requires forall r :: 0 <= r < |b| ==> |b[r]| == cols
    ensures Size(b) == |b| * cols
    ensures Shaped(b) ==> Size(b) == Rows * Cols
  {
    if b != [] {
      assert forall r :: 0 <= r < |b[1..]| ==> b[1..][r] == b[r + 1];
      SizeOfRectangle(b[1..], cols);
    }
  }

  /** Writing v into one cell of a row changes its filled count by what the
      cell held and what it holds now. */
  lemma {:induction false} FilledInRowUpdate(s: seq<int>, c: nat, v: int)
    requires c < |s|
    ensures FilledInRow(s[c := v]) + (if s[c] != 0 then 1 else 0)
            == FilledInRow(s) + (if v != 0 then 1 else 0)
  {
    if c > 0 {
      FilledInRowUpdate(s[1..], c - 1, v);
      assert s[c := v][1..] == s[1..][c - 1 := v];
    }
  }

  /** Writing v into one cell of a board changes its filled count by what the
      cell held and what it holds now. */
  lemma {:induction false} FilledUpdate(b: Board, r: nat, c: nat, v: int)
    requires r < |b| && c < |b[r]|
    ensures Filled(b[r := b[r][c := v]]) + (if b[r][c] != 0 then 1 else 0)
            == Filled(b) + (if v != 0 then 1 else 0)
  {
    if r == 0 {
      FilledInRowUpdate(b[0], c, v);
      assert b[r := b[r][c := v]][1..] == b[1..];
    } else {
      FilledUpdate(b[1..], r - 1, c, v);
      assert b[r := b[r][c := v]][1..] == b[1..][r - 1 := b[1..][r - 1][c := v]];
    }
  }

  /** An empty board has no filled cell. */
  lemma {:induction false} EmptyBoardFilled(rows: nat, cols: nat)
    ensures Filled(EmptyBoard(rows, cols)) == 0
  {
    if rows > 0 {
      EmptyRowFilled(cols);
      EmptyBoardFilled(rows - 1, cols);
      assert EmptyBoard(rows, cols)[1..] == EmptyBoard(rows - 1, cols);
    }
  }

  /** A row of empty cells has no filled cell. */
  lemma {:induction false} EmptyRowFilled(cols: nat)
    ensures FilledInRow(seq(cols, _ => 0)) == 0
  {
    if cols > 0 {
      EmptyRowFilled(cols - 1);
      assert seq(cols, _ => 0)[1..] == seq(cols - 1, _ => 0);
    }
  }

  /** Counting a row left to right: one more cell adds its own share. */
  lemma {:induction false} FilledInRowAppend(s: seq<int>, x: int)
    ensures FilledInRow(s + [x]) == FilledInRow(s) + (if x != 0 then 1 else 0)
  {
    if s != [] {
      assert (s + [x])[1..] == s[1..] + [x];
      FilledInRowAppend(s[1..], x);
    }
  }

  /** Counting a board top to bottom: one more row adds its own count. */
  lemma {:induction false} FilledAppend(b: Board, row: seq<int>)
    ensures Filled(b + [row]) == Filled(b) + FilledInRow(row)
  {
    if b != [] {
      assert (b + [row])[1..] == b[1..] + [row];
      FilledAppend(b[1..], row);
    }
  }
}

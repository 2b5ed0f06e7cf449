/**
 * The Queens puzzle: an n-by-n board split into coloured regions must
 * receive one queen per row, column and region, with no two queens
 * touching.  A level is generated by a backtracking solver that places one
 * queen per row; the player then places queens and X markers, can let the
 * game cross out every cell a queen attacks, ask for hints and undo.
 */
module Queens {
  import opened Options

  // Cell codes, as the grid stores them.
  const Empty := 0
  const Queen := 1
  const Cross := 2

  /** The number of snapshots the undo history keeps. */
  const MaxHistory := 50

  type Grid = seq<seq<int>>

  predicate Square(g: Grid, n: nat)
  {
    |g| == n && forall i :: 0 <= i < n ==> |g[i]| == n
  }

  function Abs(x: int): nat { if x < 0 then -x else x }

  // ---------------------------------------------------------------------
  // The level solver: board[r] is the column of the queen in row r.

  /**
   * Column c is safe for row r: no earlier row uses column c, and no
   * earlier row within one row of r has its queen within one column of c.
   */
  predicate Safe(b: seq<int>, r: nat, c: int)
    requires r <= |b|
  {
    forall i :: 0 <= i < r ==> b[i] != c && !(Abs(i - r) <= 1 && Abs(b[i] - c) <= 1)
  }

  /** Rows 0..k-1 of b hold columns of an n-wide board, each safe with respect to the rows above it. */
  predicate Placed(b: seq<int>, n: nat, k: nat)
    requires k <= |b|
  {
    forall r :: 0 <= r < k ==> 0 <= b[r] < n && Safe(b, r, b[r])
  }

  /** Some choice of columns for the remaining rows completes p to a full placement. */
  ghost predicate Completable(p: seq<int>, n: nat)
  {
    exists ext: seq<int> :: |p| + |ext| == n && Placed(p + ext, n, n)
  }

  /** order lists every column of an n-wide board and nothing else (a shuffled range(n)). */
  ghost predicate Columns(order: seq<int>, n: nat)
  {
    forall c :: c in order <==> 0 <= c < n
  }

  /** Only the row directly above matters for touching: rows further up are more than one row away. */
  lemma SafeIff(b: seq<int>, r: nat, c: int)
    requires r <= |b|
    ensures Safe(b, r, c) <==> (forall i :: 0 <= i < r ==> b[i] != c) && (r > 0 ==> Abs(b[r - 1] - c) > 1)
  {
    if (forall i :: 0 <= i < r ==> b[i] != c) && (r > 0 ==> Abs(b[r - 1] - c) > 1) {
      forall i | 0 <= i < r
        ensures b[i] != c && !(Abs(i - r) <= 1 && Abs(b[i] - c) <= 1)
      {
        if i < r - 1 { assert Abs(i - r) > 1; }
      }
    }
  }

  /** Safety of row r reads only the rows above it. */
  lemma SafePrefix(a: seq<int>, b: seq<int>, r: nat, c: int)
    requires r <= |a| && r <= |b| && a[..r] == b[..r]
    ensures Safe(a, r, c) == Safe(b, r, c)
  {
    forall i | 0 <= i < r ensures a[i] == b[i] { assert a[i] == a[..r][i]; }
  }

  lemma PlacedPrefix(a: seq<int>, b: seq<int>, k: nat)
    requires k <= |a| && k <= |b| && a[..k] == b[..k]
    ensures forall n: nat :: Placed(a, n, k) == Placed(b, n, k)
  {
    forall r | 0 <= r < k
      ensures a[r] == b[r] && Safe(a, r, a[r]) == Safe(b, r, a[r])
    {
      assert a[r] == a[..k][r];
      assert a[..r] == a[..k][..r];
      assert b[..r] == b[..k][..r];
      SafePrefix(a, b, r, a[r]);
    }
  }

  /**
   * A full placement is exactly one queen per row, in distinct columns,
   * with the queens of consecutive rows never in neighbouring columns.
   */
  lemma PlacedIff(b: seq<int>, n: nat)
    requires |b| == n
    ensures Placed(b, n, n) <==>
      (forall r :: 0 <= r < n ==> 0 <= b[r] < n) &&
      (forall i, j :: 0 <= i < j < n ==> b[i] != b[j]) &&
      (forall i, j :: 0 <= i && j == i + 1 < n ==> Abs(b[i] - b[j]) > 1)
  {
    if Placed(b, n, n) {
      forall i, j | 0 <= i < j < n ensures b[i] != b[j] {
        assert Safe(b, j, b[j]);
      }
      forall i, j | 0 <= i && j == i + 1 < n ensures Abs(b[i] - b[j]) > 1 {
        assert Safe(b, j, b[j]);
      }
    }
    if (forall i, j :: 0 <= i < j < n ==> b[i] != b[j]) &&
       (forall i, j :: 0 <= i && j == i + 1 < n ==> Abs(b[i] - b[j]) > 1)
    {
      forall r | 0 <= r < n ensures Safe(b, r, b[r]) {
        SafeIff(b, r, b[r]);
        if r > 0 { assert Abs(b[r - 1] - b[r]) > 1; }
      }
    }
  }

  /** is_safe: scan the rows above r. */
  method IsSafe(board: array<int>, r: nat, c: int) returns (ok: bool)
    requires r <= board.Length
    ensures ok == Safe(board[..], r, c)
  {
    for i := 0 to r
      invariant forall k :: 0 <= k < i ==> board[k] != c && !(Abs(k - r) <= 1 && Abs(board[k] - c) <= 1)
    {
      if board[i] == c || (Abs(i - r) <= 1 && Abs(board[i] - c) <= 1) {
        return false;
      }
    }
    return true;
  }

  /** No completion of p puts its next queen in column c. */
  ghost predicate Excluded(p: seq<int>, n: nat, c: int)
  {
    forall ext: seq<int> :: |p| < n && |p| + |ext| == n && Placed(p + ext, n, n) ==> ext[0] != c
  }

  /** A column from which the rest cannot be completed is excluded. */
  lemma DeadEnd(p: seq<int>, n: nat, c: int)
    requires |p| < n && !Completable(p + [c], n)
    ensures Excluded(p, n, c)
  {
    forall ext: seq<int> | |p| + |ext| == n && Placed(p + ext, n, n)
      ensures ext[0] != c
    {
      assert p + [ext[0]] + ext[1..] == p + ext;
    }
  }

  /** A column that is not safe below p is excluded. */
  lemma Unsafe(p: seq<int>, b: seq<int>, n: nat, c: int)
    requires |p| < n && |p| <= |b| && b[..|p|] == p && !Safe(b, |p|, c)
    ensures Excluded(p, n, c)
  {
    var r := |p|;
    forall ext: seq<int> | |p| + |ext| == n && Placed(p + ext, n, n)
      ensures ext[0] != c
    {
      assert (p + ext)[r] == ext[0];
      assert (p + ext)[..r] == p;
      SafePrefix(p + ext, b, r, ext[0]);
    }
  }

  /** With every column excluded, p has no completion. */
  lemma Exhausted(p: seq<int>, n: nat, order: seq<int>)
    requires |p| < n && Columns(order, n)
    requires forall j :: 0 <= j < |order| ==> Excluded(p, n, order[j])
    ensures !Completable(p, n)
  {
    forall ext: seq<int> | |p| + |ext| == n
      ensures !Placed(p + ext, n, n)
    {
      var c := ext[0];
      assert (p + ext)[|p|] == c;
      if 0 <= c < n {
        assert c in order;
        var j :| 0 <= j < |order| && order[j] == c;
        assert Excluded(p, n, order[j]);
      }
    }
  }

  /**
   * solve: place rows r.. by backtracking, trying the columns in `order`.
   * On success the whole board is a placement; on failure no placement
   * extends the rows above r.  Either way the rows above r are untouched.
   */
  method Solve(board: array<int>, r: nat, order: seq<int>) returns (ok: bool)
    requires r <= board.Length && Placed(board[..], board.Length, r)
    requires Columns(order, board.Length)
    modifies board
    ensures board[..r] == old(board[..r])
    ensures ok ==> Placed(board[..], board.Length, board.Length)
    ensures !ok ==> !Completable(old(board[..r]), board.Length)
    decreases board.Length - r
  {
    var n := board.Length;
    if r == n {
      return true;
    }
    ghost var p := board[..r];
    for i := 0 to |order|
      invariant board[..r] == p && Placed(board[..], n, r)
      invariant forall j :: 0 <= j < i ==> Excluded(p, n, order[j])
    {
      var c := order[i];
      var safe := IsSafe(board, r, c);
      if safe {
        ghost var before := board[..];
        board[r] := c;
        assert board[..r] == before[..r];
        PlacedPrefix(board[..], before, r);
        SafePrefix(board[..], before, r, c);
        assert c in order;
        assert board[..r + 1] == p + [c];
        ghost var atCall := board[..];
        ok := Solve(board, r + 1, order);
        assert board[..r] == board[..r + 1][..r];
        assert atCall[..r] == atCall[..r + 1][..r];
        if ok {
          return;
        }
        PlacedPrefix(board[..], atCall, r);
        DeadEnd(p, n, c);
      } else {
        Unsafe(p, board[..], n, c);
      }
    }
    Exhausted(p, n, order);
    return false;
  }

  /**
   * Every even size from 6 up, which covers the sizes the game offers
   * (6, 8 and 10), has a placement: the even columns top-down, then the
   * odd ones.
   */
  lemma SolvableSizes(n: nat)
    requires n >= 6 && n % 2 == 0
    ensures Completable([], n)
  {
    EvenThenOddPlaced(n / 2);
  }

  /** The even columns top-down, then the odd ones. */
  function EvenThenOdd(m: nat): (b: seq<int>)
    ensures |b| == 2 * m
  {
    seq(2 * m, i => if i < m then 2 * i else 2 * (i - m) + 1)
  }

  lemma EvenThenOddDistinct(m: nat)
    ensures var b := EvenThenOdd(m); forall i :: 0 <= i < 2 * m ==> 0 <= b[i] < 2 * m
    ensures var b := EvenThenOdd(m); forall i, j :: 0 <= i < j < 2 * m ==> b[i] != b[j]
  {
    var b := EvenThenOdd(m);
    forall i, j | 0 <= i < j < 2 * m ensures b[i] != b[j] {
      if i < m && j >= m {
        assert b[i] == 2 * i && b[j] == 2 * (j - m) + 1;
      }
    }
  }

  lemma EvenThenOddApart(m: nat)
    requires m >= 3
    ensures var b := EvenThenOdd(m); forall i, j :: 0 <= i && j == i + 1 < 2 * m ==> Abs(b[i] - b[j]) > 1
  {
    var b := EvenThenOdd(m);
    forall i, j | 0 <= i && j == i + 1 < 2 * m ensures Abs(b[i] - b[j]) > 1 {
      if j == m { assert b[i] == 2 * m - 2 && b[j] == 1; }
    }
  }

  lemma EvenThenOddPlaced(m: nat)
    requires m >= 3
    ensures Completable([], 2 * m)
  {
    var b := EvenThenOdd(m);
    EvenThenOddDistinct(m);
    EvenThenOddApart(m);
    PlacedIff(b, 2 * m);
    assert Placed([] + b, 2 * m, 2 * m) by { assert [] + b == b; }
  }

  /**
   * The solver's part of generate_level: run solve from row 0 on a board
   * of -1's and pair each row with its column.  For the offered sizes the
   * result is one queen per row, column and pair of consecutive rows.
   */
  method GenerateSolution(n: nat, order: seq<int>) returns (cols: seq<int>)
    requires n == 6 || n == 8 || n == 10
    requires Columns(order, n)
    ensures |cols| == n && Placed(cols, n, n)
  {
    var board := new int[n](_ => -1);
    assert Placed(board[..], n, 0);
    var ok := Solve(board, 0, order);
    SolvableSizes(n);
    assert board[..0] == [];
    cols := board[..];
  }

  // ---------------------------------------------------------------------
  // Rules on the player's grid

  /** Two cells, each with its region, share a row, column or region, or touch. */
  predicate Clash(r: int, c: int, a: int, r2: int, c2: int, b: int)
  {
    r == r2 || c == c2 || (Abs(r - r2) <= 1 && Abs(c - c2) <= 1) || a == b
  }

  predicate On(n: nat, r: int, c: int) { 0 <= r < n && 0 <= c < n }

  /** Cell (i, j) is another cell that clashes with (r, c). */
  predicate Hit(regions: Grid, n: nat, r: int, c: int, i: int, j: int)
    requires Square(regions, n) && On(n, r, c) && On(n, i, j)
  {
    !(i == r && j == c) && Clash(r, c, regions[r][c], i, j, regions[i][j])
  }

  /** check_rules: (r, c) holds a queen and another queen clashes with it. */
  ghost predicate Violates(g: Grid, regions: Grid, n: nat, r: int, c: int)
    requires Square(g, n) && Square(regions, n) && On(n, r, c)
  {
    g[r][c] == Queen &&
    exists i, j :: On(n, i, j) && g[i][j] == Queen && Hit(regions, n, r, c, i, j)
  }

  /** Queens are flagged in pairs: a queen in conflict with another makes that one a violation too. */
  lemma ViolationMutual(g: Grid, regions: Grid, n: nat, r: int, c: int, i: int, j: int)
    requires Square(g, n) && Square(regions, n) && On(n, r, c) && On(n, i, j)
    requires g[r][c] == Queen && g[i][j] == Queen && Hit(regions, n, r, c, i, j)
    ensures Violates(g, regions, n, r, c) && Violates(g, regions, n, i, j)
  {
    assert Hit(regions, n, i, j, r, c);
  }

  /** The number of queens in row[..k]. */
  function RowQueens(row: seq<int>, k: nat): nat
    requires k <= |row|
  {
    if k == 0 then 0 else RowQueens(row, k - 1) + (if row[k - 1] == Queen then 1 else 0)
  }

  /** The number of queens in rows 0..k-1. */
  function GridQueens(g: Grid, n: nat, k: nat): nat
    requires Square(g, n) && k <= n
  {
    if k == 0 then 0 else GridQueens(g, n, k - 1) + RowQueens(g[k - 1], n)
  }

  /** check_win's condition: exactly n queens on the board and none of them in violation. */
  ghost predicate Won(g: Grid, regions: Grid, n: nat)
    requires Square(g, n) && Square(regions, n)
  {
    GridQueens(g, n, n) == n &&
    forall r, c :: On(n, r, c) ==> !Violates(g, regions, n, r, c)
  }

  /** Two grids with queens on the same cells. */
  ghost predicate SameQueens(g: Grid, h: Grid, n: nat)
    requires Square(g, n) && Square(h, n)
  {
    forall i, j :: On(n, i, j) ==> (g[i][j] == Queen <==> h[i][j] == Queen)
  }

  lemma RowQueensSame(a: seq<int>, b: seq<int>, k: nat)
    requires k <= |a| && k <= |b|
    requires forall j :: 0 <= j < k ==> (a[j] == Queen <==> b[j] == Queen)
    ensures RowQueens(a, k) == RowQueens(b, k)
  {
    if k > 0 { RowQueensSame(a, b, k - 1); }
  }

  lemma GridQueensSame(g: Grid, h: Grid, n: nat, k: nat)
    requires Square(g, n) && Square(h, n) && SameQueens(g, h, n) && k <= n
    ensures GridQueens(g, n, k) == GridQueens(h, n, k)
  {
    if k > 0 {
      GridQueensSame(g, h, n, k - 1);
      RowQueensSame(g[k - 1], h[k - 1], n);
    }
  }

  /** Winning and every violation depend only on where the queens stand: X markers are irrelevant. */
  lemma RulesReadQueensOnly(g: Grid, h: Grid, regions: Grid, n: nat)
    requires Square(g, n) && Square(h, n) && Square(regions, n) && SameQueens(g, h, n)
    ensures forall r, c :: On(n, r, c) ==> Violates(g, regions, n, r, c) == Violates(h, regions, n, r, c)
    ensures Won(g, regions, n) == Won(h, regions, n)
  {
    forall r, c | On(n, r, c)
      ensures Violates(g, regions, n, r, c) == Violates(h, regions, n, r, c)
    {
      if Violates(g, regions, n, r, c) {
        var i, j :| On(n, i, j) && g[i][j] == Queen && Hit(regions, n, r, c, i, j);
        assert h[i][j] == Queen;
      }
      if Violates(h, regions, n, r, c) {
        var i, j :| On(n, i, j) && h[i][j] == Queen && Hit(regions, n, r, c, i, j);
        assert g[i][j] == Queen;
      }
    }
    GridQueensSame(g, h, n, n);
  }

  /** A row with two or more queens has two queens at distinct columns. */
  lemma TwoInRow(row: seq<int>, k: nat) returns (a: nat, b: nat)
    requires k <= |row| && RowQueens(row, k) >= 2
    ensures a < b < k && row[a] == Queen && row[b] == Queen
  {
    if RowQueens(row, k - 1) >= 2 {
      a, b := TwoInRow(row, k - 1);
    } else {
      a := FirstQueen(row, k - 1);
      b := k - 1;
    }
  }

  lemma FirstQueen(row: seq<int>, k: nat) returns (a: nat)
    requires k <= |row| && RowQueens(row, k) >= 1
    ensures a < k && row[a] == Queen
  {
    if row[k - 1] == Queen { a := k - 1; } else { a := FirstQueen(row, k - 1); }
  }

  /** Counting rows that hold at most one queen each: the total reaches k only if every row holds one. */
  lemma CountRows(g: Grid, n: nat, k: nat)
    requires Square(g, n) && k <= n
    requires forall i :: 0 <= i < n ==> RowQueens(g[i], n) <= 1
    ensures GridQueens(g, n, k) <= k
    ensures GridQueens(g, n, k) == k ==> forall i :: 0 <= i < k ==> RowQueens(g[i], n) == 1
  {
    if k > 0 { CountRows(g, n, k - 1); }
  }

  /** A won grid has exactly one queen in every row. */
  lemma WonOneQueenPerRow(g: Grid, regions: Grid, n: nat)
    requires Square(g, n) && Square(regions, n) && Won(g, regions, n)
    ensures forall i :: 0 <= i < n ==> RowQueens(g[i], n) == 1
  {
    forall i | 0 <= i < n ensures RowQueens(g[i], n) <= 1 {
      if RowQueens(g[i], n) >= 2 {
        var a, b := TwoInRow(g[i], n);
        assert Hit(regions, n, i, a, i, b);
        assert Violates(g, regions, n, i, a);
        assert On(n, i, a);
      }
    }
    CountRows(g, n, n);
  }

  /** The grid holding exactly the queens of a solution. */
  function SolutionGrid(cols: seq<int>, n: nat): (g: Grid)
    requires |cols| == n
    ensures Square(g, n)
    ensures forall i, j :: On(n, i, j) ==> (g[i][j] == Queen <==> j == cols[i])
  {
    seq(n, i requires 0 <= i < n => seq(n, j => if j == cols[i] then Queen else Empty))
  }

  lemma OneQueenRow(row: seq<int>, col: int, k: nat)
    requires k <= |row|
    requires forall j :: 0 <= j < |row| ==> (row[j] == Queen <==> j == col)
    ensures RowQueens(row, k) == (if 0 <= col < k then 1 else 0)
  {
    if k > 0 { OneQueenRow(row, col, k - 1); }
  }

  lemma SolutionCount(cols: seq<int>, n: nat, k: nat)
    requires |cols| == n && k <= n && forall r :: 0 <= r < n ==> 0 <= cols[r] < n
    ensures GridQueens(SolutionGrid(cols, n), n, k) == k
  {
    if k > 0 {
      SolutionCount(cols, n, k - 1);
      var g := SolutionGrid(cols, n);
      OneQueenRow(g[k - 1], cols[k - 1], n);
    }
  }

  /**
   * The solver's placement wins the game once its queens are on the board,
   * provided the regions give each of its queens a region of its own.
   */
  lemma SolutionWins(cols: seq<int>, regions: Grid, n: nat)
    requires |cols| == n && Placed(cols, n, n) && Square(regions, n)
    requires forall i, j :: 0 <= i < j < n ==> regions[i][cols[i]] != regions[j][cols[j]]
    ensures Won(SolutionGrid(cols, n), regions, n)
  {
    PlacedIff(cols, n);
    SolutionCount(cols, n, n);
    var g := SolutionGrid(cols, n);
    forall r, c, i, j | On(n, r, c) && On(n, i, j) && g[r][c] == Queen && g[i][j] == Queen
      ensures !Hit(regions, n, r, c, i, j)
    {
      assert c == cols[r] && j == cols[i];
      if i == r + 1 {
        assert Abs(cols[r] - cols[i]) > 1;
      } else if r == i + 1 {
        assert Abs(cols[i] - cols[r]) > 1;
      }
    }
  }

  // ---------------------------------------------------------------------
  // Undo history

  /** save_state's history: the snapshot appended, the oldest dropped beyond MaxHistory. */
  function Push(h: seq<Grid>, g: Grid): seq<Grid>
  {
    if |h| + 1 > MaxHistory then (h + [g])[1..] else h + [g]
  }

  /** The capped history ends with the new snapshot, keeps at most MaxHistory, and drops only the oldest. */
  lemma PushKeepsNewest(h: seq<Grid>, g: Grid)
    requires |h| <= MaxHistory
    ensures var p := Push(h, g);
      |p| <= MaxHistory && p != [] && p[|p| - 1] == g &&
      (|h| < MaxHistory ==> p[..|p| - 1] == h) &&
      (|h| == MaxHistory ==> p[..|p| - 1] == h[1..])
  {
    var p := Push(h, g);
    if |h| == MaxHistory {
      assert p == h[1..] + [g];
    } else {
      assert p[..|p| - 1] == h;
    }
  }

  /** The cell written by a hint at a chosen position: a queen on a solution cell, an X elsewhere. */
  function HintMark(solution: seq<(int, int)>, r: int, c: int): int
  {
    if (r, c) in solution then Queen else Cross
  }

  /** The solution cells without a queen, in solution order. */
  function Missing(g: Grid, n: nat, solution: seq<(int, int)>): (m: seq<(int, int)>)
    requires Square(g, n) && Cells(solution, n)
    ensures forall p :: p in m <==> p in solution && On(n, p.0, p.1) && g[p.0][p.1] != Queen
  {
    if solution == [] then []
    else
      var last := solution[|solution| - 1];
      Missing(g, n, solution[..|solution| - 1]) + (if g[last.0][last.1] != Queen then [last] else [])
  }

  function Set(g: Grid, n: nat, r: int, c: int, v: int): (h: Grid)
    requires Square(g, n) && On(n, r, c)
    ensures Square(h, n)
  {
    g[r := g[r][c := v]]
  }

  /** Every entry of the solution is a cell of the n-by-n board. */
  predicate Cells(solution: seq<(int, int)>, n: nat)
  {
    forall k :: 0 <= k < |solution| ==> 0 <= solution[k].0 < n && 0 <= solution[k].1 < n
  }

  /** The columns of a solution, row by row. */
  function ColumnsOf(solution: seq<(int, int)>): seq<int>
  {
    seq(|solution|, k requires 0 <= k < |solution| => solution[k].1)
  }

  /** Every entry of the solution sits in a different row. */
  predicate RowsDistinct(solution: seq<(int, int)>)
  {
    forall a, b :: 0 <= a < b < |solution| ==> solution[a].0 != solution[b].0
  }

  /** A queen placed on a missing solution cell shortens the missing list by one. */
  lemma {:induction false} HintProgress(g: Grid, n: nat, solution: seq<(int, int)>, p: (int, int))
    requires Square(g, n) && Cells(solution, n)
    requires RowsDistinct(solution) && p in Missing(g, n, solution)
    ensures |Missing(Set(g, n, p.0, p.1, Queen), n, solution)| == |Missing(g, n, solution)| - 1
    decreases |solution|
  {
    var h := Set(g, n, p.0, p.1, Queen);
    var init := solution[..|solution| - 1];
    var last := solution[|solution| - 1];
    assert RowsDistinct(init);
    if last == p {
      forall a | 0 <= a < |init| ensures init[a] != p {
        assert solution[a].0 != solution[|solution| - 1].0;
      }
      MissingSame(g, h, n, init, p);
    } else {
      assert p in Missing(g, n, init);
      HintProgress(g, n, init, p);
      assert h[last.0][last.1] == g[last.0][last.1];
    }
  }

  /** Cells other than p keep their missing status when a queen goes on p. */
  lemma {:induction false} MissingSame(g: Grid, h: Grid, n: nat, solution: seq<(int, int)>, p: (int, int))
    requires Square(g, n) && Cells(solution, n)
    requires On(n, p.0, p.1) && h == Set(g, n, p.0, p.1, Queen) && p !in solution
    ensures Missing(h, n, solution) == Missing(g, n, solution)
    decreases |solution|
  {
    if solution != [] {
      var init := solution[..|solution| - 1];
      var last := solution[|solution| - 1];
      assert last != p;
      assert forall x :: x in init ==> x in solution;
      MissingSame(g, h, n, init, p);
      if last.0 == p.0 { assert h[last.0][last.1] == g[last.0][last.1]; }
    }
  }

  /** The grid after provide_hint writes its cell (before the win check). */
  function HintGrid(g: Grid, n: nat, solution: seq<(int, int)>, manual: Option<(int, int)>, pick: nat): (h: Grid)
    requires Square(g, n) && Cells(solution, n)
    requires manual.Some? ==> On(n, manual.value.0, manual.value.1)
    ensures Square(h, n)
  {
    match manual
    case Some(pos) => Set(g, n, pos.0, pos.1, HintMark(solution, pos.0, pos.1))
    case None =>
      var missing := Missing(g, n, solution);
      if missing == [] then g
      else
        var p := missing[pick % |missing|];
        Set(g, n, p.0, p.1, Queen)
  }

  /** An automatic hint places a solution queen and brings the grid one queen closer to the solution. */
  lemma AutoHintProgress(g: Grid, n: nat, solution: seq<(int, int)>, pick: nat)
    requires Square(g, n) && Cells(solution, n)
    requires RowsDistinct(solution) && Missing(g, n, solution) != []
    ensures var h := HintGrid(g, n, solution, None, pick);
      |Missing(h, n, solution)| == |Missing(g, n, solution)| - 1 &&
      exists k :: 0 <= k < |solution| && h[solution[k].0][solution[k].1] == Queen && g[solution[k].0][solution[k].1] != Queen
  {
    var missing := Missing(g, n, solution);
    var p := missing[pick % |missing|];
    HintProgress(g, n, solution, p);
    var k :| 0 <= k < |solution| && solution[k] == p;
  }

  /** Mark value for a cell: an empty cell the queen clashes with becomes an X; everything else stays. */
  function MarkCell(v: int, hit: bool): int
  {
    if hit && v == Empty then Cross else v
  }

  /** Crossing out around a queen leaves every queen where it was, so it cannot change the win check. */
  lemma MarkKeepsRules(g: Grid, h: Grid, regions: Grid, n: nat, r: int, c: int)
    requires Square(g, n) && Square(h, n) && Square(regions, n) && On(n, r, c)
    requires forall i, j :: On(n, i, j) ==> h[i][j] == MarkCell(g[i][j], Hit(regions, n, r, c, i, j))
    ensures SameQueens(g, h, n) && Won(g, regions, n) == Won(h, regions, n)
    ensures forall i, j :: On(n, i, j) && g[i][j] != Empty ==> h[i][j] == g[i][j]
  {
    RulesReadQueensOnly(g, h, regions, n);
  }

  /** The row auto_mark_x produces for row nr. */
  method MarkRow(row: seq<int>, regRow: seq<int>, nr: int, r: int, c: int, rid: int) returns (out: seq<int>)
    requires |regRow| == |row|
    ensures |out| == |row|
    ensures forall j :: 0 <= j < |row| ==>
      out[j] == MarkCell(row[j], !(nr == r && j == c) && Clash(r, c, rid, nr, j, regRow[j]))
  {
    out := row;
    for nc := 0 to |row|
      invariant |out| == |row|
      invariant forall j :: 0 <= j < nc ==>
        out[j] == MarkCell(row[j], !(nr == r && j == c) && Clash(r, c, rid, nr, j, regRow[j]))
      invariant forall j :: nc <= j < |row| ==> out[j] == row[j]
    {
      if nr == r && nc == c { continue; }
      if nr == r || nc == c || (Abs(nr - r) <= 1 && Abs(nc - c) <= 1) || regRow[nc] == rid {
        if out[nc] == Empty { out := out[nc := Cross]; }
      }
    }
  }

  // ---------------------------------------------------------------------
  // The game

  class Game {
    const size: nat
    var grid: Grid
    var regions: Grid
    var solution: seq<(int, int)>
    var history: seq<Grid>
    var undoCount: int
    var hintCount: int
    var won: bool

    ghost predicate Valid()
      reads this
    {
      Square(grid, size) && Square(regions, size) &&
      |history| <= MaxHistory && (forall k :: 0 <= k < |history| ==> Square(history[k], size)) &&
      |solution| == size && RowsDistinct(solution) &&
      Cells(solution, size)
    }

    /**
     * reset with a given level: the solver runs with the column order
     * `order`; the regions, grown at random around the solution, are given.
     */
    constructor (n: nat, order: seq<int>, regs: Grid)
      requires n == 6 || n == 8 || n == 10
      requires Columns(order, n) && Square(regs, n)
      ensures Valid() && size == n && regions == regs
      ensures grid == seq(n, _ => seq(n, _ => Empty)) && history == []
      ensures undoCount == 0 && hintCount == 0 && !won
      ensures |solution| == n && forall k :: 0 <= k < n ==> solution[k].0 == k
      ensures Placed(ColumnsOf(solution), n, n)
    {
      size := n;
      grid := seq(n, _ => seq(n, _ => Empty));
      regions := regs;
      history := [];
      undoCount := 0;
      hintCount := 0;
      won := false;
      var cols := GenerateSolution(n, order);
      solution := seq(n, k requires 0 <= k < n => (k, cols[k]));
      new;
      assert ColumnsOf(solution) == cols;
    }

    /** save_state */
    method SaveState()
      requires Valid()
      modifies this
      ensures Valid()
      ensures history == Push(old(history), old(grid))
      ensures grid == old(grid) && regions == old(regions) && solution == old(solution)
      ensures undoCount == old(undoCount) && hintCount == old(hintCount) && won == old(won)
    {
      history := history + [grid];
      if |history| > MaxHistory {
        history := history[1..];
      }
    }

    /** undo: restore the latest snapshot; nothing happens with an empty history. */
    method Undo()
      requires Valid()
      modifies this
      ensures Valid()
      ensures old(history) == [] ==>
        grid == old(grid) && history == old(history) && undoCount == old(undoCount) && won == old(won)
      ensures old(history) != [] ==>
        grid == old(history)[|old(history)| - 1] && history == old(history)[..|old(history)| - 1] &&
        undoCount == old(undoCount) + 1 && !won
      ensures regions == old(regions) && solution == old(solution) && hintCount == old(hintCount)
    {
      if history != [] {
        grid := history[|history| - 1];
        history := history[..|history| - 1];
        undoCount := undoCount + 1;
        won := false;
      }
    }

    /** auto_mark_x: around a queen at (r, c), cross out every empty cell it clashes with. */
    method AutoMarkX(r: int, c: int)
      requires Valid() && On(size, r, c)
      modifies this
      ensures Valid()
      ensures old(grid)[r][c] != Queen ==> grid == old(grid) && history == old(history)
      ensures old(grid)[r][c] == Queen ==>
        history == Push(old(history), old(grid)) &&
        forall i, j :: On(size, i, j) ==> grid[i][j] == MarkCell(old(grid)[i][j], Hit(regions, size, r, c, i, j))
      ensures regions == old(regions) && solution == old(solution)
      ensures undoCount == old(undoCount) && hintCount == old(hintCount) && won == old(won)
    {
      if grid[r][c] != Queen {
        return;
      }
      SaveState();
      var rid := regions[r][c];
      ghost var g0 := grid;
      for nr := 0 to size
        invariant Valid() && regions == old(regions) && solution == old(solution)
        invariant history == Push(old(history), old(grid))
        invariant undoCount == old(undoCount) && hintCount == old(hintCount) && won == old(won)
        invariant forall i, j :: 0 <= i < nr && 0 <= j < size ==> grid[i][j] == MarkCell(g0[i][j], Hit(regions, size, r, c, i, j))
        invariant forall i :: nr <= i < size ==> grid[i] == g0[i]
      {
        var row := MarkRow(grid[nr], regions[nr], nr, r, c, rid);
        grid := grid[nr := row];
      }
    }

    /** check_rules */
    method CheckRules(r: int, c: int) returns (v: bool)
      requires Valid() && On(size, r, c)
      ensures v == Violates(grid, regions, size, r, c)
    {
      if grid[r][c] != Queen {
        return false;
      }
      for r2 := 0 to size
        invariant forall i, j :: 0 <= i < r2 && 0 <= j < size ==> !(grid[i][j] == Queen && Hit(regions, size, r, c, i, j))
      {
        for c2 := 0 to size
          invariant forall j :: 0 <= j < c2 ==> !(grid[r2][j] == Queen && Hit(regions, size, r, c, r2, j))
        {
          if r == r2 && c == c2 { continue; }
          if grid[r2][c2] == Queen {
            if r == r2 || c == c2 || (Abs(r - r2) <= 1 && Abs(c - c2) <= 1) || regions[r][c] == regions[r2][c2] {
              assert Hit(regions, size, r, c, r2, c2);
              return true;
            }
          }
        }
      }
      return false;
    }

    /** The number of queens on the grid, row by row. */
    method CountQueens() returns (total: nat)
      requires Valid()
      ensures total == GridQueens(grid, size, size)
    {
      total := 0;
      for r := 0 to size
        invariant total == GridQueens(grid, size, r)
      {
        var inRow := 0;
        for c := 0 to size
          invariant inRow == RowQueens(grid[r], c)
        {
          if grid[r][c] == Queen { inRow := inRow + 1; }
        }
        total := total + inRow;
      }
    }

    /** check_win: set won when exactly size queens stand and none is in violation; never clears it. */
    method CheckWin()
      requires Valid()
      modifies this
      ensures Valid()
      ensures won == (old(won) || Won(grid, regions, size))
      ensures grid == old(grid) && regions == old(regions) && solution == old(solution) && history == old(history)
      ensures undoCount == old(undoCount) && hintCount == old(hintCount)
    {
      var total := CountQueens();
      if total != size {
        return;
      }
      var clean := NoViolation();
      if clean {
        won := true;
      }
    }

    /** No queen on the grid is in violation (the `any` over check_rules in check_win). */
    method NoViolation() returns (clean: bool)
      requires Valid()
      ensures clean == forall i, j :: On(size, i, j) ==> !Violates(grid, regions, size, i, j)
    {
      for r := 0 to size
        invariant forall i, j :: 0 <= i < r && 0 <= j < size ==> !Violates(grid, regions, size, i, j)
      {
        for c := 0 to size
          invariant forall j :: 0 <= j < c ==> !Violates(grid, regions, size, r, j)
        {
          if grid[r][c] == Queen {
            var v := CheckRules(r, c);
            if v { return false; }
          } else {
            assert !Violates(grid, regions, size, r, c);
          }
        }
      }
      return true;
    }

    /**
     * provide_hint: save, count the hint, then write the hint cell: at a
     * chosen position a queen if it is a solution cell and an X otherwise;
     * with no position a queen on the missing solution cell `pick` selects.
     */
    method ProvideHint(manual: Option<(int, int)>, pick: nat)
      requires Valid() && (manual.Some? ==> On(size, manual.value.0, manual.value.1))
      modifies this
      ensures Valid()
      ensures history == Push(old(history), old(grid)) && hintCount == old(hintCount) + 1
      ensures grid == HintGrid(old(grid), size, solution, manual, pick)
      ensures won == (old(won) || Won(grid, regions, size))
      ensures regions == old(regions) && solution == old(solution) && undoCount == old(undoCount)
    {
      SaveState();
      hintCount := hintCount + 1;
      if manual.Some? {
        var (r, c) := manual.value;
        grid := Set(grid, size, r, c, HintMark(solution, r, c));
      } else {
        var missing := Missing(grid, size, solution);
        if missing != [] {
          var (r, c) := missing[pick % |missing|];
          grid := Set(grid, size, r, c, Queen);
        }
      }
      CheckWin();
    }

    /** A plain click: button 1 toggles a queen, button 3 toggles an X, after a snapshot; then the win check. */
    method Toggle(r: int, c: int, button: int)
      requires Valid() && On(size, r, c)
      modifies this
      ensures Valid()
      ensures history == Push(old(history), old(grid))
      ensures var v := old(grid)[r][c];
        grid == if button == 1 then Set(old(grid), size, r, c, if v != Queen then Queen else Empty)
                else if button == 3 then Set(old(grid), size, r, c, if v != Cross then Cross else Empty)
                else old(grid)
      ensures won == (old(won) || Won(grid, regions, size))
      ensures regions == old(regions) && solution == old(solution)
      ensures undoCount == old(undoCount) && hintCount == old(hintCount)
    {
      SaveState();
      if button == 1 {
        grid := Set(grid, size, r, c, if grid[r][c] != Queen then Queen else Empty);
      } else if button == 3 {
        grid := Set(grid, size, r, c, if grid[r][c] != Cross then Cross else Empty);
      }
      CheckWin();
    }
  }
}

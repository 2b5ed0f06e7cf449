/**
 * Sudoku: a generator fills the three diagonal 3x3 boxes with shuffled
 * digits, completes the grid with a backtracking solver and blanks some
 * cells; the player then types digits into the cells that were dealt
 * empty, and the screen marks a typed digit that repeats in its row,
 * column or box.  0 stands for an empty cell.
 */
module Sudoku {
  import opened Options

  type Board = seq<seq<int>>

  predicate Square9(g: Board)
  {
    |g| == 9 && forall i :: 0 <= i < 9 ==> |g[i]| == 9
  }

  predicate Cell(r: int, c: int) { 0 <= r < 9 && 0 <= c < 9 }

  /** The first row (or column) of the 3x3 box holding row (or column) x. */
  function BoxStart(x: int): int
  {
    if x < 3 then 0 else if x < 6 then 3 else 6
  }

  /** Both ways the program computes the start of a box, x - x % 3 and x // 3 * 3, give BoxStart. */
  lemma BoxStartIs(x: int)
    requires 0 <= x < 9
    ensures BoxStart(x) == x - x % 3 == x / 3 * 3
  {
  }

  /** Two different cells in the same row, column or box. */
  predicate Peer(r: int, c: int, r2: int, c2: int)
  {
    !(r == r2 && c == c2) &&
    (r == r2 || c == c2 || (BoxStart(r) == BoxStart(r2) && BoxStart(c) == BoxStart(c2)))
  }

  /** No digit repeats in a row, a column or a box. */
  ghost predicate Consistent(g: Board)
    requires Square9(g)
  {
    forall r, c, r2, c2 :: Cell(r, c) && Cell(r2, c2) && Peer(r, c, r2, c2) && g[r][c] != 0 ==> g[r][c] != g[r2][c2]
  }

  /** is_safe: num is absent from the row, the column and the box of (r, c). */
  ghost predicate SafeAt(g: Board, r: int, c: int, num: int)
    requires Square9(g) && Cell(r, c)
  {
    (forall x :: 0 <= x < 9 ==> g[r][x] != num) &&
    (forall x :: 0 <= x < 9 ==> g[x][c] != num) &&
    (forall a, b :: BoxStart(r) <= a < BoxStart(r) + 3 && BoxStart(c) <= b < BoxStart(c) + 3 ==> g[a][b] != num)
  }

  /** Safe means: not in the cell itself and not in any of its peers. */
  lemma SafeIff(g: Board, r: int, c: int, num: int)
    requires Square9(g) && Cell(r, c)
    ensures SafeAt(g, r, c, num) <==>
      g[r][c] != num && forall r2, c2 :: Cell(r2, c2) && Peer(r, c, r2, c2) ==> g[r2][c2] != num
  {
    if g[r][c] != num && forall r2, c2 :: Cell(r2, c2) && Peer(r, c, r2, c2) ==> g[r2][c2] != num {
      forall x | 0 <= x < 9 ensures g[r][x] != num && g[x][c] != num {
        if x != c { assert Peer(r, c, r, x); }
        if x != r { assert Peer(r, c, x, c); }
      }
      forall a, b | BoxStart(r) <= a < BoxStart(r) + 3 && BoxStart(c) <= b < BoxStart(c) + 3
        ensures g[a][b] != num
      {
        if !(a == r && b == c) { assert Peer(r, c, a, b); }
      }
    }
  }

  function Set(g: Board, r: int, c: int, v: int): (h: Board)
    requires Square9(g) && Cell(r, c)
    ensures Square9(h) && h[r][c] == v
    ensures forall i, j :: Cell(i, j) && !(i == r && j == c) ==> h[i][j] == g[i][j]
  {
    g[r := g[r][c := v]]
  }

  /** Writing a safe digit into an empty cell keeps the grid consistent. */
  lemma SafeKeepsConsistent(g: Board, r: int, c: int, v: int)
    requires Square9(g) && Cell(r, c) && Consistent(g) && v != 0 && SafeAt(g, r, c, v)
    ensures Consistent(Set(g, r, c, v))
  {
    SafeIff(g, r, c, v);
    var h := Set(g, r, c, v);
    forall r1, c1, r2, c2 | Cell(r1, c1) && Cell(r2, c2) && Peer(r1, c1, r2, c2) && h[r1][c1] != 0
      ensures h[r1][c1] != h[r2][c2]
    {
      if r1 == r && c1 == c {
      } else if r2 == r && c2 == c {
        assert Peer(r, c, r1, c1);
      }
    }
  }

  // ---------------------------------------------------------------------
  // Solutions

  /** Every cell holds a digit 1..9. */
  ghost predicate Filled(h: Board)
    requires Square9(h)
  {
    forall i, j :: Cell(i, j) ==> 1 <= h[i][j] <= 9
  }

  /** h keeps every digit of g. */
  ghost predicate Extends(h: Board, g: Board)
    requires Square9(h) && Square9(g)
  {
    forall i, j :: Cell(i, j) && g[i][j] != 0 ==> h[i][j] == g[i][j]
  }

  /** h is a solved grid that keeps the digits of g. */
  ghost predicate Completion(h: Board, g: Board)
  {
    Square9(h) && Square9(g) && Filled(h) && Consistent(h) && Extends(h, g)
  }

  ghost predicate Completable(g: Board)
  {
    exists h :: Completion(h, g)
  }

  /** No solution of g puts v at (r, c). */
  ghost predicate Excluded(g: Board, r: int, c: int, v: int)
    requires Square9(g) && Cell(r, c)
  {
    forall h :: Completion(h, g) ==> h[r][c] != v
  }

  /** A digit that is not safe in an empty cell appears in no solution there. */
  lemma UnsafeExcluded(g: Board, r: int, c: int, v: int)
    requires Square9(g) && Cell(r, c) && g[r][c] == 0 && v != 0 && !SafeAt(g, r, c, v)
    ensures Excluded(g, r, c, v)
  {
    SafeIff(g, r, c, v);
    var r2, c2 :| Cell(r2, c2) && Peer(r, c, r2, c2) && g[r2][c2] == v;
    forall h | Completion(h, g) ensures h[r][c] != v {
      assert h[r2][c2] == v;
    }
  }

  /** A digit whose grid cannot be completed appears in no solution there. */
  lemma DeadEndExcluded(g: Board, r: int, c: int, v: int)
    requires Square9(g) && Cell(r, c) && g[r][c] == 0 && !Completable(Set(g, r, c, v))
    ensures Excluded(g, r, c, v)
  {
    forall h | Completion(h, g) ensures h[r][c] != v {
      if h[r][c] == v {
        assert Completion(h, Set(g, r, c, v));
      }
    }
  }

  /** With all nine digits excluded from an empty cell, there is no solution. */
  lemma AllExcluded(g: Board, r: int, c: int)
    requires Square9(g) && Cell(r, c)
    requires forall v :: 1 <= v <= 9 ==> Excluded(g, r, c, v)
    ensures !Completable(g)
  {
    forall h | Square9(h) && Filled(h) ensures !Completion(h, g) {
      var v := h[r][c];
      assert 1 <= v <= 9;
      assert Excluded(g, r, c, v);
    }
  }

  /** Grids agreeing on every cell are equal. */
  lemma BoardEq(a: Board, b: Board)
    requires Square9(a) && Square9(b) && forall i, j :: Cell(i, j) ==> a[i][j] == b[i][j]
    ensures a == b
  {
    forall i | 0 <= i < 9 ensures a[i] == b[i] {
      assert forall j :: 0 <= j < 9 ==> a[i][j] == b[i][j] by {
        forall j | 0 <= j < 9 ensures a[i][j] == b[i][j] { assert Cell(i, j); }
      }
    }
  }

  // ---------------------------------------------------------------------
  // Counting empty cells (the solver's termination measure)

  function RowZeros(row: seq<int>, k: nat): nat
    requires k <= |row|
  {
    if k == 0 then 0 else RowZeros(row, k - 1) + (if row[k - 1] == 0 then 1 else 0)
  }

  function Zeros(g: Board, k: nat): nat
    requires Square9(g) && k <= 9
  {
    if k == 0 then 0 else Zeros(g, k - 1) + RowZeros(g[k - 1], 9)
  }

  lemma RowZerosSet(row: seq<int>, k: nat, c: int, v: int)
    requires k <= |row| && 0 <= c < |row| && row[c] == 0 && v != 0
    ensures RowZeros(row[c := v], k) == RowZeros(row, k) - (if c < k then 1 else 0)
  {
    if k > 0 { RowZerosSet(row, k - 1, c, v); }
  }

  lemma {:induction false} ZerosSet(g: Board, k: nat, r: int, c: int, v: int)
    requires Square9(g) && k <= 9 && Cell(r, c) && g[r][c] == 0 && v != 0
    ensures Zeros(Set(g, r, c, v), k) == Zeros(g, k) - (if r < k then 1 else 0)
  {
    if k > 0 {
      ZerosSet(g, k - 1, r, c, v);
      if k - 1 == r { RowZerosSet(g[r], 9, c, v); }
    }
  }

  lemma NoZeros(g: Board, k: nat, r: int, c: int)
    requires Square9(g) && k <= 9 && Cell(r, c) && r < k && g[r][c] == 0
    ensures Zeros(g, k) > 0
  {
    if r < k - 1 { NoZeros(g, k - 1, r, c); } else { RowZeroAt(g[r], 9, c); }
  }

  lemma RowZeroAt(row: seq<int>, k: nat, c: int)
    requires k <= |row| && 0 <= c < k && row[c] == 0
    ensures RowZeros(row, k) > 0
  {
    if c < k - 1 { RowZeroAt(row, k - 1, c); }
  }

  // ---------------------------------------------------------------------
  // The solver, on the generator's 9x9 array

  /** The array's contents as a board. */
  ghost function Snap(a: array2<int>): (s: Board)
    requires a.Length0 == 9 && a.Length1 == 9
    reads a
    ensures Square9(s) && forall i, j :: Cell(i, j) ==> s[i][j] == a[i, j]
  {
    seq(9, i requires 0 <= i < 9 reads a => seq(9, j requires 0 <= j < 9 reads a => a[i, j]))
  }

  /** is_safe: the row scan, the column scan, then the box scan. */
  method IsSafe(grid: array2<int>, row: int, col: int, num: int) returns (ok: bool)
    requires grid.Length0 == 9 && grid.Length1 == 9 && Cell(row, col)
    ensures ok == SafeAt(Snap(grid), row, col, num)
  {
    ghost var g := Snap(grid);
    for x := 0 to 9
      invariant forall k :: 0 <= k < x ==> g[row][k] != num
    {
      if grid[row, x] == num { return false; }
    }
    for x := 0 to 9
      invariant forall k :: 0 <= k < x ==> g[k][col] != num
    {
      if grid[x, col] == num { return false; }
    }
    var startRow, startCol := row - row % 3, col - col % 3;
    BoxStartIs(row);
    BoxStartIs(col);
    for i := 0 to 3
      invariant forall a, b :: startRow <= a < startRow + i && startCol <= b < startCol + 3 ==> g[a][b] != num
    {
      for j := 0 to 3
        invariant forall a, b :: a == startRow + i && startCol <= b < startCol + j ==> g[a][b] != num
      {
        if grid[i + startRow, j + startCol] == num {
          assert BoxStart(i + startRow) == BoxStart(row) && BoxStart(j + startCol) == BoxStart(col);
          assert g[i + startRow][j + startCol] == num;
          return false;
        }
      }
    }
    return true;
  }

  /**
   * solve: fill the first empty cell in row-major order with the first
   * digit 1..9 that is safe and lets the rest be solved, backtracking
   * otherwise.  On success no cell is empty, the given digits are kept and
   * a consistent grid stays consistent; on failure the grid is as it was
   * and it has no solution.
   */
  method Solve(grid: array2<int>) returns (ok: bool)
    requires grid.Length0 == 9 && grid.Length1 == 9
    modifies grid
    ensures ok ==> Solved(Snap(grid), old(Snap(grid)))
    ensures !ok ==> Snap(grid) == old(Snap(grid)) && !Completable(Snap(grid))
    decreases Zeros(Snap(grid), 9), 1
  {
    for r := 0 to 9
      invariant forall i, j :: 0 <= i < r && 0 <= j < 9 ==> grid[i, j] != 0
    {
      for c := 0 to 9
        invariant forall j :: 0 <= j < c ==> grid[r, j] != 0
      {
        if grid[r, c] == 0 {
          ok := TryCell(grid, r, c);
          return;
        }
      }
    }
    return true;
  }

  /** What a successful solve leaves: a grid with no empty cell that keeps the given digits, writes only 1..9 and keeps consistency. */
  ghost predicate Solved(h: Board, g: Board)
  {
    Square9(h) && Square9(g) &&
    (forall i, j :: Cell(i, j) ==> h[i][j] != 0) &&
    (forall i, j :: Cell(i, j) && g[i][j] == 0 ==> 1 <= h[i][j] <= 9) &&
    Extends(h, g) &&
    (Consistent(g) ==> Consistent(h))
  }

  /** The digit loop of solve for the empty cell (r, c). */
  method TryCell(grid: array2<int>, r: int, c: int) returns (ok: bool)
    requires grid.Length0 == 9 && grid.Length1 == 9 && Cell(r, c) && grid[r, c] == 0
    modifies grid
    ensures ok ==> Solved(Snap(grid), old(Snap(grid)))
    ensures !ok ==> Snap(grid) == old(Snap(grid)) && !Completable(Snap(grid))
    decreases Zeros(Snap(grid), 9), 0
  {
    ghost var g0 := Snap(grid);
    for num := 1 to 10
      invariant Snap(grid) == g0
      invariant forall v :: 1 <= v < num ==> Excluded(g0, r, c, v)
    {
      var safe := IsSafe(grid, r, c, num);
      if safe {
        grid[r, c] := num;
        ghost var g1 := Set(g0, r, c, num);
        BoardEq(Snap(grid), g1);
        ZerosSet(g0, 9, r, c, num);
        ok := Solve(grid);
        if ok {
          SolvedStep(g0, g1, Snap(grid), r, c, num);
          return;
        }
        DeadEndExcluded(g0, r, c, num);
        grid[r, c] := 0;
        BoardEq(Snap(grid), g0);
      } else {
        UnsafeExcluded(g0, r, c, num);
      }
    }
    AllExcluded(g0, r, c);
    return false;
  }

  /** A solution of the grid with one safe digit written is a solution of the grid before. */
  lemma SolvedStep(g0: Board, g1: Board, h: Board, r: int, c: int, num: int)
    requires Square9(g0) && Cell(r, c) && g0[r][c] == 0 && 1 <= num <= 9
    requires SafeAt(g0, r, c, num) && g1 == Set(g0, r, c, num) && Solved(h, g1)
    ensures Solved(h, g0)
  {
    if Consistent(g0) { SafeKeepsConsistent(g0, r, c, num); }
  }

  // ---------------------------------------------------------------------
  // The generator

  /** nums is a shuffle of the digits 1..9: nine distinct digits. */
  predicate Digits(nums: seq<int>)
  {
    |nums| == 9 && (forall k :: 0 <= k < 9 ==> 1 <= nums[k] <= 9) &&
    forall a, b :: 0 <= a < b < 9 ==> nums[a] != nums[b]
  }

  /** The digit fill_box writes at offset (i, j) of its box: it pops from the end of the shuffled list. */
  function Popped(nums: seq<int>, i: int, j: int): int
    requires |nums| == 9 && 0 <= i < 3 && 0 <= j < 3
  {
    nums[8 - (3 * i + j)]
  }

  /** The board after fill_diagonal on an empty grid: box k on the diagonal gets perms[k]. */
  function DiagonalBoard(perms: seq<seq<int>>): (g: Board)
    requires |perms| == 3 && forall k :: 0 <= k < 3 ==> |perms[k]| == 9
    ensures Square9(g)
  {
    seq(9, i requires 0 <= i < 9 =>
      seq(9, j requires 0 <= j < 9 =>
        if BoxStart(i) == BoxStart(j) then Popped(perms[BoxStart(i) / 3], i - BoxStart(i), j - BoxStart(j)) else 0))
  }

  /** Filling the three diagonal boxes with shuffles of 1..9 gives a consistent grid: they share no row or column. */
  lemma DiagonalConsistent(perms: seq<seq<int>>)
    requires |perms| == 3 && forall k :: 0 <= k < 3 ==> |perms[k]| == 9 && Digits(perms[k])
    ensures Consistent(DiagonalBoard(perms))
    ensures forall i, j :: Cell(i, j) ==> (DiagonalBoard(perms)[i][j] != 0 <==> BoxStart(i) == BoxStart(j))
  {
    var g := DiagonalBoard(perms);
    forall r, c, r2, c2 | Cell(r, c) && Cell(r2, c2) && Peer(r, c, r2, c2) && g[r][c] != 0
      ensures g[r][c] != g[r2][c2]
    {
      if BoxStart(r2) == BoxStart(c2) {
        assert BoxStart(r) == BoxStart(r2) && BoxStart(c) == BoxStart(c2);
        var b := BoxStart(r) / 3;
        assert 8 - (3 * (r - BoxStart(r)) + (c - BoxStart(c))) != 8 - (3 * (r2 - BoxStart(r2)) + (c2 - BoxStart(c2)));
      }
    }
  }

  class Generator {
    const grid: array2<int>

    ghost predicate Valid()
      reads this
    {
      grid.Length0 == 9 && grid.Length1 == 9
    }

    /**
     * The generator: fill the diagonal boxes with the shuffles `perms`,
     * solve, then blank up to 40 digits in the order `order` gives.  The
     * generated grid never repeats a digit in a row, column or box.
     */
    constructor (perms: seq<seq<int>>, order: seq<(int, int)>)
      requires |perms| == 3 && forall k :: 0 <= k < 3 ==> |perms[k]| == 9 && Digits(perms[k])
      requires AllCells(order)
      ensures Valid() && fresh(grid) && Consistent(Snap(grid))
    {
      grid := new int[9, 9]((_, _) => 0);
      new;
      FillDiagonal(perms);
      DiagonalConsistent(perms);
      var _ := Solve(grid);
      RemoveDigits(order);
    }

    /** fill_box: write the shuffle nums into the box at (row, col), popping from its end. */
    method FillBox(row: int, col: int, nums: seq<int>)
      requires Valid() && 0 <= row <= 6 && 0 <= col <= 6 && |nums| == 9
      modifies grid
      ensures forall i, j :: Cell(i, j) ==>
        grid[i, j] == (if row <= i < row + 3 && col <= j < col + 3 then Popped(nums, i - row, j - col) else old(grid[i, j]))
    {
      var stack := nums;
      for i := 0 to 3
        invariant |stack| == 9 - 3 * i && stack == nums[..9 - 3 * i]
        invariant forall a, b :: Cell(a, b) ==>
          grid[a, b] == (if row <= a < row + i && col <= b < col + 3 then Popped(nums, a - row, b - col) else old(grid[a, b]))
      {
        for j := 0 to 3
          invariant |stack| == 9 - 3 * i - j && stack == nums[..9 - 3 * i - j]
          invariant forall a, b :: Cell(a, b) ==>
            grid[a, b] == (if (row <= a < row + i && col <= b < col + 3) || (a == row + i && col <= b < col + j)
            then Popped(nums, a - row, b - col) else old(grid[a, b]))
        {
          grid[row + i, col + j] := stack[|stack| - 1];
          stack := stack[..|stack| - 1];
        }
      }
    }

    /** fill_diagonal: fill the boxes at (0, 0), (3, 3) and (6, 6) from an empty grid. */
    method FillDiagonal(perms: seq<seq<int>>)
      requires Valid() && |perms| == 3 && forall k :: 0 <= k < 3 ==> |perms[k]| == 9
      requires forall i, j :: Cell(i, j) ==> grid[i, j] == 0
      modifies grid
      ensures Snap(grid) == DiagonalBoard(perms)
    {
      for k := 0 to 3
        invariant forall i, j :: Cell(i, j) ==>
          grid[i, j] == (if BoxStart(i) == BoxStart(j) && BoxStart(i) < 3 * k then DiagonalBoard(perms)[i][j] else 0)
      {
        FillBox(3 * k, 3 * k, perms[k]);
      }
      BoardEq(Snap(grid), DiagonalBoard(perms));
    }

    /** The non-empty cells of the grid, in the order `order` lists them. */
    method Candidates(order: seq<(int, int)>) returns (candidates: seq<(int, int)>)
      requires Valid() && OnBoard(order)
      ensures candidates == NonEmpty(Snap(grid), order)
    {
      ghost var g0 := Snap(grid);
      candidates := [];
      for k := 0 to |order|
        invariant candidates == NonEmpty(g0, order[..k])
      {
        var (r, c) := order[k];
        assert order[..k + 1] == order[..k] + [order[k]];
        if grid[r, c] != 0 {
          candidates := candidates + [(r, c)];
        }
      }
      assert order[..|order|] == order;
    }

    /**
     * remove_digits: blank the first 40 non-empty cells of a shuffled
     * list.  The shuffle of the non-empty cells is the order in which
     * they appear in `order`, a shuffle of all 81 cells.  A consistent
     * grid stays consistent.
     */
    method RemoveDigits(order: seq<(int, int)>)
      requires Valid() && OnBoard(order)
      modifies grid
      ensures var cand := NonEmpty(old(Snap(grid)), order);
        Snap(grid) == Blank(old(Snap(grid)), cand[..if |cand| < 40 then |cand| else 40])
      ensures Consistent(old(Snap(grid))) ==> Consistent(Snap(grid))
    {
      ghost var g0 := Snap(grid);
      var candidates := Candidates(order);
      BlankFirst(candidates, 40);
      if Consistent(g0) {
        BlankConsistent(g0, candidates[..if |candidates| < 40 then |candidates| else 40]);
      }
    }

    /** The counting loop of remove_digits: empty the listed cells until `count` of them are empty. */
    method BlankFirst(cells: seq<(int, int)>, count: int)
      requires Valid() && OnBoard(cells) && 0 <= count
      modifies grid
      ensures Snap(grid) == Blank(old(Snap(grid)), cells[..if |cells| < count then |cells| else count])
    {
      ghost var g0 := Snap(grid);
      var left := count;
      var n := 0;
      ghost var cur := g0;
      while n < |cells|
        invariant 0 <= n <= |cells| && left == count - n && 0 <= left
        invariant cur == Blank(g0, cells[..n])
        invariant forall i, j :: Cell(i, j) ==> grid[i, j] == cur[i][j]
      {
        if left <= 0 { break; }
        var (r, c) := cells[n];
        grid[r, c] := 0;
        cur := Set(cur, r, c, 0);
        left := left - 1;
        assert cells[..n + 1][..n] == cells[..n];
        n := n + 1;
      }
      BoardEq(Snap(grid), cur);
    }
  }

  /** Every listed position is a cell of the grid. */
  predicate OnBoard(cells: seq<(int, int)>)
  {
    forall k :: 0 <= k < |cells| ==> 0 <= cells[k].0 < 9 && 0 <= cells[k].1 < 9
  }

  /** order lists all 81 cells, each once. */
  ghost predicate AllCells(order: seq<(int, int)>)
  {
    OnBoard(order) &&
    (forall a, b :: 0 <= a < b < |order| ==> order[a] != order[b]) &&
    (forall r, c :: Cell(r, c) ==> (r, c) in order)
  }

  /** The cells of `order` that are non-empty in g, in order. */
  function NonEmpty(g: Board, order: seq<(int, int)>): (cand: seq<(int, int)>)
    requires Square9(g) && OnBoard(order)
    ensures forall k :: 0 <= k < |cand| ==> Cell(cand[k].0, cand[k].1) && g[cand[k].0][cand[k].1] != 0
  {
    if order == [] then []
    else
      var p := order[|order| - 1];
      NonEmpty(g, order[..|order| - 1]) + (if g[p.0][p.1] != 0 then [p] else [])
  }

  /** g with the listed cells emptied. */
  function Blank(g: Board, cells: seq<(int, int)>): (h: Board)
    requires Square9(g) && OnBoard(cells)
    ensures Square9(h)
  {
    if cells == [] then g
    else
      var p := cells[|cells| - 1];
      Set(Blank(g, cells[..|cells| - 1]), p.0, p.1, 0)
  }

  /** A cell of Blank(g, cells) is empty if it is listed and keeps its value otherwise. */
  lemma {:induction false} BlankAt(g: Board, cells: seq<(int, int)>, i: int, j: int)
    requires Square9(g) && OnBoard(cells) && Cell(i, j)
    ensures Blank(g, cells)[i][j] == if (i, j) in cells then 0 else g[i][j]
  {
    if cells != [] {
      var init := cells[..|cells| - 1];
      BlankAt(g, init, i, j);
      assert cells == init + [cells[|cells| - 1]];
    }
  }

  /** Emptying cells keeps a consistent grid consistent. */
  lemma BlankConsistent(g: Board, cells: seq<(int, int)>)
    requires Square9(g) && OnBoard(cells) && Consistent(g)
    ensures Consistent(Blank(g, cells))
  {
    var h := Blank(g, cells);
    forall r, c, r2, c2 | Cell(r, c) && Cell(r2, c2) && Peer(r, c, r2, c2) && h[r][c] != 0
      ensures h[r][c] != h[r2][c2]
    {
      BlankAt(g, cells, r, c);
      BlankAt(g, cells, r2, c2);
    }
  }

  // ---------------------------------------------------------------------
  // The play screen

  const GridSize := 600
  /** 600 // 9: the nine cells span 594 pixels of the 600-pixel grid area. */
  const CellSize := GridSize / 9
  /** How many cells of the solved grid the deal empties. */
  const Holes := 45

  type DigitKey = d: int | 1 <= d <= 9 witness 1

  /** The keys the play screen reacts to; Other stands for every other key. */
  datatype Key = Up | Down | Left | Right | Digit(d: DigitKey) | Erase | Other

  /** The selection after an arrow key (Python's % on a negative row wraps to 8, as Dafny's does). */
  function Navigate(sel: (int, int), key: Key): (int, int)
  {
    match key
    case Up => ((sel.0 - 1) % 9, sel.1)
    case Down => ((sel.0 + 1) % 9, sel.1)
    case Left => (sel.0, (sel.1 - 1) % 9)
    case Right => (sel.0, (sel.1 + 1) % 9)
    case _ => sel
  }

  /** The value a key press writes into the selected cell, as written: 0 unless a digit was typed. */
  function KeyValueAsWritten(key: Key): int
  {
    match key
    case Digit(d) => d
    case _ => 0
  }

  /** The value a key press is meant to write: a digit, 0 for erase, and nothing for any other key. */
  function KeyValue(key: Key): Option<int>
  {
    match key
    case Digit(d) => Some(d)
    case Erase => Some(0)
    case _ => None
  }

  /** The grid after a key press, as written: every key writes its value into a cell not dealt. */
  function EditAsWritten(g: Board, fixed: seq<seq<bool>>, sel: (int, int), key: Key): (h: Board)
    requires Square9(g) && |fixed| == 9 && (forall i :: 0 <= i < 9 ==> |fixed[i]| == 9) && Cell(sel.0, sel.1)
    ensures Square9(h)
  {
    if !fixed[sel.0][sel.1] then Set(g, sel.0, sel.1, KeyValueAsWritten(key)) else g
  }

  /** The grid after a key press: only digit and erase keys write, and only into cells not dealt. */
  function Edit(g: Board, fixed: seq<seq<bool>>, sel: (int, int), key: Key): (h: Board)
    requires Square9(g) && |fixed| == 9 && (forall i :: 0 <= i < 9 ==> |fixed[i]| == 9) && Cell(sel.0, sel.1)
    ensures Square9(h)
  {
    var v := KeyValue(key);
    if v.Some? && !fixed[sel.0][sel.1] then Set(g, sel.0, sel.1, v.value) else g
  }

  /** As written, moving off a typed digit with an arrow key erases it. */
  lemma ArrowErases(g: Board, fixed: seq<seq<bool>>, sel: (int, int))
    requires Square9(g) && |fixed| == 9 && (forall i :: 0 <= i < 9 ==> |fixed[i]| == 9) && Cell(sel.0, sel.1)
    requires !fixed[sel.0][sel.1] && g[sel.0][sel.1] != 0
    ensures EditAsWritten(g, fixed, sel, Up)[sel.0][sel.1] == 0 != g[sel.0][sel.1]
  {
  }

  /** Corrected: arrow keys and other keys never change the grid, and a key changes at most the selected, non-dealt cell. */
  lemma EditOnlyTyped(g: Board, fixed: seq<seq<bool>>, sel: (int, int), key: Key)
    requires Square9(g) && |fixed| == 9 && (forall i :: 0 <= i < 9 ==> |fixed[i]| == 9) && Cell(sel.0, sel.1)
    ensures KeyValue(key).None? ==> Edit(g, fixed, sel, key) == g
    ensures forall i, j :: Cell(i, j) && (fixed[i][j] || !(i == sel.0 && j == sel.1)) ==> Edit(g, fixed, sel, key)[i][j] == g[i][j]
    ensures key.Digit? && !fixed[sel.0][sel.1] ==> Edit(g, fixed, sel, key)[sel.0][sel.1] == key.d
  {
  }

  /** The cell a click at pixel (x, y) of the grid area selects, as written. */
  function SelectAsWritten(x: int, y: int): (int, int)
  {
    (y / CellSize, x / CellSize)
  }

  /** As written, a click in the last six pixels selects column 9, which the next key press reads out of range. */
  lemma ClickPastLastColumn()
    ensures 0 <= 599 < GridSize && SelectAsWritten(599, 0) == (0, 9) && !Cell(0, 9)
  {
  }

  /** Corrected: a click selects a cell only when both indices fall inside the grid. */
  function Select(sel: (int, int), x: int, y: int): (s: (int, int))
    requires Cell(sel.0, sel.1) && 0 <= x && 0 <= y
    ensures Cell(s.0, s.1)
    ensures s != sel ==> s == SelectAsWritten(x, y) && y < GridSize
  {
    var t := SelectAsWritten(x, y);
    if y < GridSize && Cell(t.0, t.1) then t else sel
  }

  /** The number of occurrences of v in s. */
  function Count(s: seq<int>, v: int): nat
  {
    if s == [] then 0 else Count(s[..|s| - 1], v) + (if s[|s| - 1] == v then 1 else 0)
  }

  /** With s[k] == v, v occurs more than once exactly when it also occurs at another index. */
  lemma {:induction false} CountTwice(s: seq<int>, k: int, v: int)
    requires 0 <= k < |s| && s[k] == v
    ensures Count(s, v) > 1 <==> exists k2 :: 0 <= k2 < |s| && k2 != k && s[k2] == v
  {
    var init := s[..|s| - 1];
    var last := |s| - 1;
    CountZero(init, v);
    if k == last {
      if Count(init, v) > 0 {
        var k2 :| 0 <= k2 < |init| && init[k2] == v;
        assert s[k2] == v;
      }
      if exists k2 :: 0 <= k2 < |s| && k2 != k && s[k2] == v {
        var k2 :| 0 <= k2 < |s| && k2 != k && s[k2] == v;
        assert init[k2] == v;
      }
    } else {
      assert init[k] == v;
      CountTwice(init, k, v);
      if s[last] == v {
        assert Count(s, v) > 1;
      } else if exists k2 :: 0 <= k2 < |s| && k2 != k && s[k2] == v {
        var k2 :| 0 <= k2 < |s| && k2 != k && s[k2] == v;
        assert init[k2] == v;
      }
    }
  }

  lemma {:induction false} CountZero(s: seq<int>, v: int)
    ensures Count(s, v) == 0 <==> forall k :: 0 <= k < |s| ==> s[k] != v
  {
    if s != [] {
      var init := s[..|s| - 1];
      CountZero(init, v);
      assert forall k :: 0 <= k < |init| ==> init[k] == s[k];
    }
  }

  /** Column c as a list, top to bottom. */
  function Column(g: Board, c: int): seq<int>
    requires Square9(g) && 0 <= c < 9
  {
    seq(9, x requires 0 <= x < 9 => g[x][c])
  }

  /** The box of (r, c) as a list, row by row; BoxStart is the program's r // 3 * 3. */
  function Box(g: Board, r: int, c: int): seq<int>
    requires Square9(g) && Cell(r, c)
  {
    seq(9, m requires 0 <= m < 9 => g[BoxStart(r) + m / 3][BoxStart(c) + m % 3])
  }

  /** The screen's conflict rule: a typed digit that occurs more than once in its row, column or box. */
  predicate Conflict(g: Board, fixed: seq<seq<bool>>, r: int, c: int)
    requires Square9(g) && |fixed| == 9 && (forall i :: 0 <= i < 9 ==> |fixed[i]| == 9) && Cell(r, c)
  {
    var v := g[r][c];
    v != 0 && !fixed[r][c] && (Count(g[r], v) > 1 || Count(Column(g, c), v) > 1 || Count(Box(g, r, c), v) > 1)
  }

  lemma ColumnRepeat(g: Board, r: int, c: int)
    requires Square9(g) && Cell(r, c)
    ensures Count(Column(g, c), g[r][c]) > 1 <==> exists r2 :: 0 <= r2 < 9 && r2 != r && g[r2][c] == g[r][c]
  {
    CountTwice(Column(g, c), r, g[r][c]);
    if exists r2 :: 0 <= r2 < 9 && r2 != r && g[r2][c] == g[r][c] {
      var r2 :| 0 <= r2 < 9 && r2 != r && g[r2][c] == g[r][c];
      assert Column(g, c)[r2] == g[r][c];
    }
  }

  /** Another cell of the box of (r, c). */
  predicate BoxMate(r: int, c: int, r2: int, c2: int)
  {
    Cell(r2, c2) && !(r2 == r && c2 == c) && BoxStart(r2) == BoxStart(r) && BoxStart(c2) == BoxStart(c)
  }

  /** Position m of the box list of (r, c) is cell (BoxStart(r) + m / 3, BoxStart(c) + m % 3), and back. */
  lemma BoxIndex(r: int, c: int, m: int, r2: int, c2: int)
    requires Cell(r, c) && 0 <= m < 9 && Cell(r2, c2)
    ensures (r2 == BoxStart(r) + m / 3 && c2 == BoxStart(c) + m % 3) <==>
      (BoxStart(r2) == BoxStart(r) && BoxStart(c2) == BoxStart(c) && m == 3 * (r2 - BoxStart(r)) + (c2 - BoxStart(c)))
  {
  }

  lemma BoxRepeat(g: Board, r: int, c: int)
    requires Square9(g) && Cell(r, c)
    ensures Count(Box(g, r, c), g[r][c]) > 1 <==> exists r2, c2 :: BoxMate(r, c, r2, c2) && g[r2][c2] == g[r][c]
  {
    var v := g[r][c];
    var br, bc := BoxStart(r), BoxStart(c);
    var m := 3 * (r - br) + (c - bc);
    BoxIndex(r, c, m, r, c);
    assert Box(g, r, c)[m] == v;
    CountTwice(Box(g, r, c), m, v);
    if exists r2, c2 :: BoxMate(r, c, r2, c2) && g[r2][c2] == v {
      var r2, c2 :| BoxMate(r, c, r2, c2) && g[r2][c2] == v;
      var m2 := 3 * (r2 - br) + (c2 - bc);
      assert 0 <= m2 < 9;
      BoxIndex(r, c, m2, r2, c2);
      assert Box(g, r, c)[m2] == v;
    }
    if Count(Box(g, r, c), v) > 1 {
      var m2 :| 0 <= m2 < 9 && m2 != m && Box(g, r, c)[m2] == v;
      var r2, c2 := br + m2 / 3, bc + m2 % 3;
      BoxIndex(r, c, m2, r2, c2);
      assert BoxMate(r, c, r2, c2);
    }
  }

  /** The conflict rule marks a typed digit exactly when a peer holds the same digit. */
  lemma ConflictIff(g: Board, fixed: seq<seq<bool>>, r: int, c: int)
    requires Square9(g) && |fixed| == 9 && (forall i :: 0 <= i < 9 ==> |fixed[i]| == 9) && Cell(r, c)
    ensures Conflict(g, fixed, r, c) <==>
      g[r][c] != 0 && !fixed[r][c] && exists r2, c2 :: Cell(r2, c2) && Peer(r, c, r2, c2) && g[r2][c2] == g[r][c]
  {
    var v := g[r][c];
    CountTwice(g[r], c, v);
    ColumnRepeat(g, r, c);
    BoxRepeat(g, r, c);
    if exists r2, c2 :: Cell(r2, c2) && Peer(r, c, r2, c2) && g[r2][c2] == v {
      var r2, c2 :| Cell(r2, c2) && Peer(r, c, r2, c2) && g[r2][c2] == v;
      if r2 == r {
        assert c2 != c && g[r][c2] == v;
      } else if c2 == c {
        assert r2 != r && g[r2][c] == v;
      } else {
        assert BoxMate(r, c, r2, c2);
      }
    }
    if Count(g[r], v) > 1 {
      var x :| 0 <= x < 9 && x != c && g[r][x] == v;
      assert Peer(r, c, r, x);
    }
    if Count(Column(g, c), v) > 1 {
      var x :| 0 <= x < 9 && x != r && g[x][c] == v;
      assert Peer(r, c, x, c);
    }
    if Count(Box(g, r, c), v) > 1 {
      var r2, c2 :| BoxMate(r, c, r2, c2) && g[r2][c2] == v;
      assert Peer(r, c, r2, c2);
    }
  }

  /** The cells the deal left non-empty. */
  function Givens(g: Board): (fixed: seq<seq<bool>>)
    requires Square9(g)
    ensures |fixed| == 9 && (forall i :: 0 <= i < 9 ==> |fixed[i]| == 9)
    ensures forall i, j :: Cell(i, j) ==> (fixed[i][j] <==> g[i][j] != 0)
  {
    seq(9, i requires 0 <= i < 9 => seq(9, j requires 0 <= j < 9 => g[i][j] != 0))
  }

  class Play {
    /** The grid as dealt; fixed marks its non-empty cells. */
    const dealt: Board
    const fixed: seq<seq<bool>>
    var grid: Board
    var selected: (int, int)

    ghost predicate Valid()
      reads this
    {
      Square9(dealt) && Square9(grid) && |fixed| == 9 && (forall i :: 0 <= i < 9 ==> |fixed[i]| == 9) &&
      (forall i, j :: Cell(i, j) ==> (fixed[i][j] <==> dealt[i][j] != 0)) &&
      (forall i, j :: Cell(i, j) && fixed[i][j] ==> grid[i][j] == dealt[i][j]) &&
      Cell(selected.0, selected.1)
    }

    /** The deal: copy the solution and empty the first 45 cells of the shuffle `order` of all 81 cells. */
    constructor (solution: Board, order: seq<(int, int)>)
      requires Square9(solution) && OnBoard(order)
      ensures Valid() && grid == dealt && selected == (0, 0)
      ensures dealt == Blank(solution, order[..if |order| < Holes then |order| else Holes])
    {
      var g := solution;
      var holes := Holes;
      var n := 0;
      while n < |order|
        invariant 0 <= n <= Holes && n <= |order| && holes == Holes - n
        invariant g == Blank(solution, order[..n])
      {
        if holes <= 0 { break; }
        var (r, c) := order[n];
        g := Set(g, r, c, 0);
        holes := holes - 1;
        assert order[..n + 1][..n] == order[..n];
        n := n + 1;
      }
      dealt := g;
      grid := g;
      fixed := Givens(g);
      selected := (0, 0);
    }

    /** A key press as written: arrows move the selection, and every key writes into the old selection. */
    method KeyPressAsWritten(key: Key)
      requires Valid()
      modifies this
      ensures Valid()
      ensures selected == Navigate(old(selected), key)
      ensures grid == EditAsWritten(old(grid), fixed, old(selected), key)
    {
      var (r, c) := selected;
      selected := Navigate(selected, key);
      var v := KeyValueAsWritten(key);
      if !fixed[r][c] {
        grid := Set(grid, r, c, v);
      }
    }

    /** A key press: arrows move the selection; a digit or erase key writes into the old selection if it was not dealt. */
    method KeyPress(key: Key)
      requires Valid()
      modifies this
      ensures Valid()
      ensures selected == Navigate(old(selected), key)
      ensures grid == Edit(old(grid), fixed, old(selected), key)
    {
      var (r, c) := selected;
      selected := Navigate(selected, key);
      var v := KeyValue(key);
      if v.Some? && !fixed[r][c] {
        grid := Set(grid, r, c, v.value);
      }
    }

    /** A click in the grid area selects the cell under it. */
    method Click(x: int, y: int)
      requires Valid() && 0 <= x && 0 <= y
      modifies this
      ensures Valid() && grid == old(grid)
      ensures selected == Select(old(selected), x, y)
    {
      selected := Select(selected, x, y);
    }
  }

}

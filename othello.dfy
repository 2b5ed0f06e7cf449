/**
 * Othello on an 8 x 8 grid: a move must close at least one straight run
 * of opponent discs with a disc of the mover, every closed run is
 * flipped, a side with no move passes, and the game ends on two passes
 * or when neither side can move.  The board keeps an undo stack of
 * snapshots; the AI is a depth-3 alpha-beta search that passes for a
 * side with no move.
 */
module Othello {
  import opened Options
  import Search

  const GridSize := 8
  const Empty := 0
  const Black := 1
  const White := 2

  type Grid = g: seq<seq<int>> | |g| == 8 && forall r :: 0 <= r < 8 ==> |g[r]| == 8
    witness seq(8, _ => seq(8, _ => 0))

  function Opponent(p: int): (o: int)
    ensures o != p && (o == Black || o == White)
  {
    if p == Black then White else Black
  }

  predicate InBounds(r: int, c: int) { 0 <= r < 8 && 0 <= c < 8 }

  predicate IsDirection(dr: int, dc: int) { -1 <= dr <= 1 && -1 <= dc <= 1 && (dr, dc) != (0, 0) }

  /** Grids are equal when every cell is. */
  lemma GridExt(a: Grid, b: Grid)
    requires forall x, y :: 0 <= x < 8 && 0 <= y < 8 ==> a[x][y] == b[x][y]
    ensures a == b
  {
    forall x | 0 <= x < 8 ensures a[x] == b[x] {
      assert forall y :: 0 <= y < 8 ==> a[x][y] == b[x][y];
    }
  }

  /** The eight directions, in the order the board scans them. */
  function Dir(k: nat): (d: (int, int))
    requires k < 8
    ensures IsDirection(d.0, d.1)
  {
    [(-1, -1), (-1, 0), (-1, 1), (0, -1), (0, 1), (1, -1), (1, 0), (1, 1)][k]
  }

  /** The coordinate `t` steps from `x` in direction `d` (one of -1, 0, 1). */
  function Step(x: int, t: int, d: int): int
  {
    if d == 1 then x + t else if d == -1 then x - t else x
  }

  /** The number of steps from (r, c) to (i, j) along (dr, dc), were (i, j) on that line. */
  function RayIndex(r: int, c: int, dr: int, dc: int, i: int, j: int): int
  {
    if dr == 1 then i - r else if dr == -1 then r - i else if dc == 1 then j - c else c - j
  }

  /** (i, j) is one of the cells 1..n steps from (r, c) along (dr, dc). */
  predicate OnRay(r: int, c: int, dr: int, dc: int, i: int, j: int, n: int)
  {
    var t := RayIndex(r, c, dr, dc, i, j);
    1 <= t <= n && i == Step(r, t, dr) && j == Step(c, t, dc)
  }

  lemma OnRayAt(r: int, c: int, dr: int, dc: int, t: int, n: int)
    requires IsDirection(dr, dc) && 1 <= t <= n
    ensures OnRay(r, c, dr, dc, Step(r, t, dr), Step(c, t, dc), n)
    ensures RayIndex(r, c, dr, dc, Step(r, t, dr), Step(c, t, dc)) == t
  {
  }

  /** Two different directions from the same cell never meet again. */
  lemma RaysDisjoint(r: int, c: int, k: nat, k': nat, t: int, t': int)
    requires k < 8 && k' < 8 && k != k' && t >= 1 && t' >= 1
    ensures (Step(r, t, Dir(k).0), Step(c, t, Dir(k).1)) != (Step(r, t', Dir(k').0), Step(c, t', Dir(k').1))
  {
  }

  /**
   * The length of the run of `opp` discs starting `k` steps from (r, c)
   * along (dr, dc), stopping at the edge or at any other cell.
   */
  function RunLen(g: Grid, r: int, c: int, dr: int, dc: int, opp: int, k: nat): nat
    requires InBounds(r, c) && IsDirection(dr, dc) && k >= 1
    decreases 8 - k
  {
    var i, j := Step(r, k, dr), Step(c, k, dc);
    if !InBounds(i, j) || g[i][j] != opp then 0 else 1 + RunLen(g, r, c, dr, dc, opp, k + 1)
  }

  /** A run is a maximal stretch: every cell in it is `opp` and the cell after it is not. */
  lemma {:induction false} RunLenCells(g: Grid, r: int, c: int, dr: int, dc: int, opp: int, k: nat)
    requires InBounds(r, c) && IsDirection(dr, dc) && k >= 1
    ensures var n := RunLen(g, r, c, dr, dc, opp, k);
      (forall t :: k <= t < k + n ==> InBounds(Step(r, t, dr), Step(c, t, dc)) && g[Step(r, t, dr)][Step(c, t, dc)] == opp) &&
      (!InBounds(Step(r, k + n, dr), Step(c, k + n, dc)) || g[Step(r, k + n, dr)][Step(c, k + n, dc)] != opp)
    decreases 8 - k
  {
    var i, j := Step(r, k, dr), Step(c, k, dc);
    if InBounds(i, j) && g[i][j] == opp {
      RunLenCells(g, r, c, dr, dc, opp, k + 1);
    }
  }

  /** Along (dr, dc) a run of one or more opponent discs ends in a disc of `p`. */
  predicate Closes(g: Grid, r: int, c: int, dr: int, dc: int, p: int)
    requires InBounds(r, c) && IsDirection(dr, dc)
  {
    var n := RunLen(g, r, c, dr, dc, Opponent(p), 1);
    n >= 1 && InBounds(Step(r, n + 1, dr), Step(c, n + 1, dc)) && g[Step(r, n + 1, dr)][Step(c, n + 1, dc)] == p
  }

  /**
   * One step of the walk that decides Closes: over an opponent disc the
   * run goes on; on any other cell, or off the board, the walk has its answer.
   */
  lemma ClosesWalk(g: Grid, r: int, c: int, dr: int, dc: int, p: int, t: nat)
    requires InBounds(r, c) && IsDirection(dr, dc) && t >= 1
    requires RunLen(g, r, c, dr, dc, Opponent(p), 1) == t - 1 + RunLen(g, r, c, dr, dc, Opponent(p), t)
    ensures var i, j := Step(r, t, dr), Step(c, t, dc);
      if InBounds(i, j) && g[i][j] == Opponent(p)
      then RunLen(g, r, c, dr, dc, Opponent(p), 1) == t + RunLen(g, r, c, dr, dc, Opponent(p), t + 1)
      else Closes(g, r, c, dr, dc, p) <==> t > 1 && InBounds(i, j) && g[i][j] == p
  {
  }

  /** The walk moves one cell per step and leaves the board within eight steps. */
  lemma StepOn(r: int, c: int, dr: int, dc: int, t: int)
    requires InBounds(r, c) && IsDirection(dr, dc) && t >= 1
    ensures Step(r, t + 1, dr) == Step(r, t, dr) + dr && Step(c, t + 1, dc) == Step(c, t, dc) + dc
    ensures InBounds(Step(r, t, dr), Step(c, t, dc)) ==> t < 8
  {
  }

  predicate ClosesDir(g: Grid, r: int, c: int, k: nat, p: int)
    requires InBounds(r, c) && k < 8
  {
    Closes(g, r, c, Dir(k).0, Dir(k).1, p)
  }

  /** An empty cell from which some direction closes a run of opponent discs. */
  predicate IsValidMove(g: Grid, r: int, c: int, p: int)
    requires InBounds(r, c)
  {
    g[r][c] == Empty && exists k :: 0 <= k < 8 && ClosesDir(g, r, c, k, p)
  }

  /** The run closed along direction `k`, or nothing. */
  function ClosedLen(g: Grid, r: int, c: int, k: nat, p: int): nat
    requires InBounds(r, c) && k < 8
  {
    if ClosesDir(g, r, c, k, p) then RunLen(g, r, c, Dir(k).0, Dir(k).1, Opponent(p), 1) else 0
  }

  /** (i, j) lies in the closed run of one of the first `m` directions. */
  predicate FlipsAt(g: Grid, r: int, c: int, p: int, m: nat, i: int, j: int)
    requires InBounds(r, c) && m <= 8
  {
    exists k :: 0 <= k < m && OnRay(r, c, Dir(k).0, Dir(k).1, i, j, ClosedLen(g, r, c, k, p))
  }

  /** The grid after placing `p` at (r, c) and flipping the closed runs of the first `m` directions. */
  function Flipped(g: Grid, r: int, c: int, p: int, m: nat): Grid
    requires InBounds(r, c) && m <= 8
  {
    seq(8, i requires 0 <= i < 8 =>
      seq(8, j requires 0 <= j < 8 =>
        if (i, j) == (r, c) || FlipsAt(g, r, c, p, m, i, j) then p else g[i][j]))
  }

  /** The grid after a move: the disc placed and every closed run flipped. */
  function Placed(g: Grid, r: int, c: int, p: int): Grid
    requires InBounds(r, c)
  {
    Flipped(g, r, c, p, 8)
  }

  /** The first `n` cells along (dr, dc) painted `p`. */
  function Paint(g: Grid, r: int, c: int, dr: int, dc: int, p: int, n: int): Grid
  {
    seq(8, i requires 0 <= i < 8 =>
      seq(8, j requires 0 <= j < 8 =>
        if OnRay(r, c, dr, dc, i, j, n) then p else g[i][j]))
  }

  /** One direction of make_move: the closed run, if any, painted `p`. */
  function FlipRay(g: Grid, r: int, c: int, dr: int, dc: int, p: int): Grid
    requires InBounds(r, c) && IsDirection(dr, dc)
  {
    if Closes(g, r, c, dr, dc, p) then Paint(g, r, c, dr, dc, p, RunLen(g, r, c, dr, dc, Opponent(p), 1)) else g
  }

  /** Painting one more cell of a ray. */
  lemma PaintStep(g: Grid, r: int, c: int, dr: int, dc: int, p: int, q: nat)
    requires IsDirection(dr, dc) && InBounds(Step(r, q + 1, dr), Step(c, q + 1, dc))
    ensures var i, j := Step(r, q + 1, dr), Step(c, q + 1, dc);
      Paint(g, r, c, dr, dc, p, q + 1) == Paint(g, r, c, dr, dc, p, q)[i := Paint(g, r, c, dr, dc, p, q)[i][j := p]]
  {
    var i, j := Step(r, q + 1, dr), Step(c, q + 1, dc);
    var a, b := Paint(g, r, c, dr, dc, p, q + 1), Paint(g, r, c, dr, dc, p, q)[i := Paint(g, r, c, dr, dc, p, q)[i][j := p]];
    OnRayAt(r, c, dr, dc, q + 1, q + 1);
    forall x, y | 0 <= x < 8 && 0 <= y < 8 ensures a[x][y] == b[x][y] {
      if (x, y) != (i, j) {
        assert OnRay(r, c, dr, dc, x, y, q + 1) == OnRay(r, c, dr, dc, x, y, q);
      }
    }
    GridExt(a, b);
  }

  /** Runs and closings along a ray read only the cells of that ray. */
  lemma {:induction false} RunLenAgree(g: Grid, h: Grid, r: int, c: int, dr: int, dc: int, opp: int, k: nat)
    requires InBounds(r, c) && IsDirection(dr, dc) && k >= 1
    requires forall t :: t >= 1 && InBounds(Step(r, t, dr), Step(c, t, dc)) ==>
      g[Step(r, t, dr)][Step(c, t, dc)] == h[Step(r, t, dr)][Step(c, t, dc)]
    ensures RunLen(g, r, c, dr, dc, opp, k) == RunLen(h, r, c, dr, dc, opp, k)
    decreases 8 - k
  {
    var i, j := Step(r, k, dr), Step(c, k, dc);
    if InBounds(i, j) && g[i][j] == opp {
      RunLenAgree(g, h, r, c, dr, dc, opp, k + 1);
    }
  }

  /** The earlier directions and the placed disc leave the cells of ray `k` as they were. */
  lemma LaterRayUntouched(g: Grid, r: int, c: int, p: int, k: nat)
    requires InBounds(r, c) && k < 8
    ensures forall t :: t >= 1 && InBounds(Step(r, t, Dir(k).0), Step(c, t, Dir(k).1)) ==>
      g[Step(r, t, Dir(k).0)][Step(c, t, Dir(k).1)] == Flipped(g, r, c, p, k)[Step(r, t, Dir(k).0)][Step(c, t, Dir(k).1)]
  {
    var (dr, dc) := Dir(k);
    forall t | t >= 1 && InBounds(Step(r, t, dr), Step(c, t, dc))
      ensures g[Step(r, t, dr)][Step(c, t, dc)] == Flipped(g, r, c, p, k)[Step(r, t, dr)][Step(c, t, dc)]
    {
      var i, j := Step(r, t, dr), Step(c, t, dc);
      if FlipsAt(g, r, c, p, k, i, j) {
        var k' :| 0 <= k' < k && OnRay(r, c, Dir(k').0, Dir(k').1, i, j, ClosedLen(g, r, c, k', p));
        RaysDisjoint(r, c, k, k', t, RayIndex(r, c, Dir(k').0, Dir(k').1, i, j));
      }
    }
  }

  lemma FlipsAtSucc(g: Grid, r: int, c: int, p: int, k: nat, x: int, y: int)
    requires InBounds(r, c) && k < 8
    ensures FlipsAt(g, r, c, p, k + 1, x, y) <==>
      FlipsAt(g, r, c, p, k, x, y) || OnRay(r, c, Dir(k).0, Dir(k).1, x, y, ClosedLen(g, r, c, k, p))
  {
    if FlipsAt(g, r, c, p, k + 1, x, y) && !OnRay(r, c, Dir(k).0, Dir(k).1, x, y, ClosedLen(g, r, c, k, p)) {
      var k' :| 0 <= k' < k + 1 && OnRay(r, c, Dir(k').0, Dir(k').1, x, y, ClosedLen(g, r, c, k', p));
      assert k' < k;
    }
  }

  /** On the grid left by the earlier directions, direction `k` paints the run it closes on the original grid. */
  lemma FlipRayOnLater(g: Grid, r: int, c: int, p: int, k: nat)
    requires InBounds(r, c) && k < 8
    ensures FlipRay(Flipped(g, r, c, p, k), r, c, Dir(k).0, Dir(k).1, p) ==
      Paint(Flipped(g, r, c, p, k), r, c, Dir(k).0, Dir(k).1, p, ClosedLen(g, r, c, k, p))
  {
    var (dr, dc) := Dir(k);
    var h := Flipped(g, r, c, p, k);
    LaterRayUntouched(g, r, c, p, k);
    RunLenAgree(g, h, r, c, dr, dc, Opponent(p), 1);
    var n := RunLen(g, r, c, dr, dc, Opponent(p), 1);
    assert Closes(h, r, c, dr, dc, p) == ClosesDir(g, r, c, k, p) by {
      if InBounds(Step(r, n + 1, dr), Step(c, n + 1, dc)) {
        assert g[Step(r, n + 1, dr)][Step(c, n + 1, dc)] == h[Step(r, n + 1, dr)][Step(c, n + 1, dc)];
      }
    }
    if !ClosesDir(g, r, c, k, p) {
      GridExt(h, Paint(h, r, c, dr, dc, p, 0));
    }
  }

  /**
   * Processing direction `k` on the grid left by the earlier directions
   * flips exactly the run that direction closes on the original grid:
   * the earlier flips lie on other rays and the placed disc is on none.
   */
  lemma DirectionStep(g: Grid, r: int, c: int, p: int, k: nat)
    requires InBounds(r, c) && k < 8
    ensures FlipRay(Flipped(g, r, c, p, k), r, c, Dir(k).0, Dir(k).1, p) == Flipped(g, r, c, p, k + 1)
  {
    var (dr, dc) := Dir(k);
    var h := Flipped(g, r, c, p, k);
    FlipRayOnLater(g, r, c, p, k);
    var a, b := Paint(h, r, c, dr, dc, p, ClosedLen(g, r, c, k, p)), Flipped(g, r, c, p, k + 1);
    forall x, y | 0 <= x < 8 && 0 <= y < 8 ensures a[x][y] == b[x][y] {
      FlipsAtSucc(g, r, c, p, k, x, y);
    }
    GridExt(a, b);
  }

  /** A cell of the grid after a move. */
  lemma PlacedAt(g: Grid, r: int, c: int, p: int, x: int, y: int)
    requires InBounds(r, c) && InBounds(x, y)
    ensures Placed(g, r, c, p)[x][y] == if (x, y) == (r, c) || FlipsAt(g, r, c, p, 8, x, y) then p else g[x][y]
  {
  }

  /** A move changes only the placed cell and opponent discs, each of which becomes the mover's. */
  lemma PlacedFlipsOnlyOpponents(g: Grid, r: int, c: int, p: int, x: int, y: int)
    requires InBounds(r, c) && InBounds(x, y) && (x, y) != (r, c)
    ensures Placed(g, r, c, p)[x][y] != g[x][y] ==> g[x][y] == Opponent(p) && Placed(g, r, c, p)[x][y] == p
  {
    PlacedAt(g, r, c, p, x, y);
    if FlipsAt(g, r, c, p, 8, x, y) {
      var k :| 0 <= k < 8 && OnRay(r, c, Dir(k).0, Dir(k).1, x, y, ClosedLen(g, r, c, k, p));
      var t := RayIndex(r, c, Dir(k).0, Dir(k).1, x, y);
      RunLenCells(g, r, c, Dir(k).0, Dir(k).1, Opponent(p), 1);
      assert 1 <= t <= RunLen(g, r, c, Dir(k).0, Dir(k).1, Opponent(p), 1);
    }
  }

  /** A valid move flips at least one disc: the first disc of a closed run. */
  lemma ValidMoveFlips(g: Grid, r: int, c: int, p: int)
    requires InBounds(r, c) && IsValidMove(g, r, c, p)
    ensures exists x, y :: InBounds(x, y) && (x, y) != (r, c) && g[x][y] == Opponent(p) && Placed(g, r, c, p)[x][y] == p
  {
    var k :| 0 <= k < 8 && ClosesDir(g, r, c, k, p);
    var (dr, dc) := Dir(k);
    var n := RunLen(g, r, c, dr, dc, Opponent(p), 1);
    var x, y := Step(r, 1, dr), Step(c, 1, dc);
    RunLenCells(g, r, c, dr, dc, Opponent(p), 1);
    assert InBounds(x, y) && g[x][y] == Opponent(p);
    OnRayAt(r, c, dr, dc, 1, n);
    assert ClosedLen(g, r, c, k, p) == n;
    assert FlipsAt(g, r, c, p, 8, x, y);
    PlacedAt(g, r, c, p, x, y);
  }

  /** A run in some direction is flipped whole when it is closed and left alone when it is not. */
  lemma PlacedFlipsClosedRuns(g: Grid, r: int, c: int, p: int, k: nat, t: int)
    requires InBounds(r, c) && k < 8 && 1 <= t <= RunLen(g, r, c, Dir(k).0, Dir(k).1, Opponent(p), 1)
    ensures var x, y := Step(r, t, Dir(k).0), Step(c, t, Dir(k).1);
      InBounds(x, y) && (Placed(g, r, c, p)[x][y] == p <==> ClosesDir(g, r, c, k, p))
  {
    var (dr, dc) := Dir(k);
    var x, y := Step(r, t, dr), Step(c, t, dc);
    RunLenCells(g, r, c, dr, dc, Opponent(p), 1);
    assert InBounds(x, y) && g[x][y] == Opponent(p);
    PlacedAt(g, r, c, p, x, y);
    if ClosesDir(g, r, c, k, p) {
      OnRayAt(r, c, dr, dc, t, ClosedLen(g, r, c, k, p));
    } else {
      assert (x, y) != (r, c);
      if FlipsAt(g, r, c, p, 8, x, y) {
        var k' :| 0 <= k' < 8 && OnRay(r, c, Dir(k').0, Dir(k').1, x, y, ClosedLen(g, r, c, k', p));
        RaysDisjoint(r, c, k, k', t, RayIndex(r, c, Dir(k').0, Dir(k').1, x, y));
        assert false;
      }
    }
  }

  /** Where the walk along a ray stops decides what that direction flips. */
  lemma FlipRayAtEnd(g: Grid, r: int, c: int, dr: int, dc: int, p: int, t: int)
    requires InBounds(r, c) && IsDirection(dr, dc) && t >= 1
    requires RunLen(g, r, c, dr, dc, Opponent(p), 1) == t - 1 + RunLen(g, r, c, dr, dc, Opponent(p), t)
    requires !InBounds(Step(r, t, dr), Step(c, t, dc)) || g[Step(r, t, dr)][Step(c, t, dc)] != Opponent(p)
    ensures FlipRay(g, r, c, dr, dc, p) ==
      if t > 1 && InBounds(Step(r, t, dr), Step(c, t, dc)) && g[Step(r, t, dr)][Step(c, t, dc)] == p
      then Paint(g, r, c, dr, dc, p, t - 1) else g
  {
    assert RunLen(g, r, c, dr, dc, Opponent(p), t) == 0;
  }

  // ---------------------------------------------------------------------
  // Valid moves, counts and evaluation

  /** The row-major index of a cell. */
  function Index(m: (int, int)): int { m.0 * 8 + m.1 }

  /** The valid moves among the first `n` cells in row-major order. */
  function ValidFrom(g: Grid, p: int, n: nat): seq<(int, int)>
    requires n <= 64
  {
    if n == 0 then []
    else
      var x, y := (n - 1) / 8, (n - 1) % 8;
      ValidFrom(g, p, n - 1) + (if IsValidMove(g, x, y, p) then [(x, y)] else [])
  }

  lemma ValidFromCell(g: Grid, p: int, x: int, y: int, valid: bool)
    requires InBounds(x, y) && valid == IsValidMove(g, x, y, p)
    ensures ValidFrom(g, p, 8 * x + y + 1) == ValidFrom(g, p, 8 * x + y) + (if valid then [(x, y)] else [])
  {
    var n := 8 * x + y + 1;
    assert (n - 1) / 8 == x && (n - 1) % 8 == y;
  }

  /** The last cell a scan of the first `n` cells looks at is the only one with index `n - 1`. */
  lemma LastCell(n: nat)
    requires 0 < n <= 64
    ensures InBounds((n - 1) / 8, (n - 1) % 8) && Index(((n - 1) / 8, (n - 1) % 8)) == n - 1
    ensures forall m: (int, int) :: InBounds(m.0, m.1) && Index(m) == n - 1 ==> m == ((n - 1) / 8, (n - 1) % 8)
  {
    forall m: (int, int) | InBounds(m.0, m.1) && Index(m) == n - 1 ensures m == ((n - 1) / 8, (n - 1) % 8) {
    }
  }

  /** The scan holds exactly the valid moves before index `n`. */
  lemma {:induction false} ValidFromMembers(g: Grid, p: int, n: nat)
    requires n <= 64
    ensures forall m :: m in ValidFrom(g, p, n) <==> InBounds(m.0, m.1) && Index(m) < n && IsValidMove(g, m.0, m.1, p)
  {
    if n > 0 {
      ValidFromMembers(g, p, n - 1);
      LastCell(n);
      var x, y := (n - 1) / 8, (n - 1) % 8;
      var front, last := ValidFrom(g, p, n - 1), if IsValidMove(g, x, y, p) then [(x, y)] else [];
      assert ValidFrom(g, p, n) == front + last;
      forall m: (int, int) ensures m in front + last <==> InBounds(m.0, m.1) && Index(m) < n && IsValidMove(g, m.0, m.1, p) {
        assert m in front + last <==> m in front || m in last;
      }
    }
  }

  /** The scan lists its moves in increasing index order, every one below `n`. */
  lemma {:induction false} ValidFromOrdered(g: Grid, p: int, n: nat)
    requires n <= 64
    ensures forall i :: 0 <= i < |ValidFrom(g, p, n)| ==> Index(ValidFrom(g, p, n)[i]) < n
    ensures forall i, j :: 0 <= i < j < |ValidFrom(g, p, n)| ==> Index(ValidFrom(g, p, n)[i]) < Index(ValidFrom(g, p, n)[j])
  {
    if n > 0 {
      ValidFromOrdered(g, p, n - 1);
      LastCell(n);
    }
  }

  /** Every valid move of `p`, row by row. */
  function ValidMoves(g: Grid, p: int): (moves: seq<(int, int)>)
    ensures forall m :: m in moves <==> InBounds(m.0, m.1) && IsValidMove(g, m.0, m.1, p)
    ensures forall i, j :: 0 <= i < j < |moves| ==> Index(moves[i]) < Index(moves[j])
  {
    ValidFromMembers(g, p, 64);
    ValidFromOrdered(g, p, 64);
    ValidFrom(g, p, 64)
  }

  function CountFrom(g: Grid, color: int, n: nat): (k: nat)
    requires n <= 64
    ensures k <= n
  {
    if n == 0 then 0 else CountFrom(g, color, n - 1) + (if g[(n - 1) / 8][(n - 1) % 8] == color then 1 else 0)
  }

  lemma {:induction false} CountsFit(g: Grid, n: nat)
    requires n <= 64
    ensures CountFrom(g, Black, n) + CountFrom(g, White, n) <= n
  {
    if n > 0 {
      CountsFit(g, n - 1);
    }
  }

  /** The black and the white disc counts. */
  function CountPieces(g: Grid): (bw: (nat, nat))
    ensures bw.0 + bw.1 <= 64
  {
    CountsFit(g, 64);
    (CountFrom(g, Black, 64), CountFrom(g, White, 64))
  }

  datatype Outcome = BlackWins | WhiteWins | Drawn

  /** The result by disc count. */
  function Result(g: Grid): (o: Outcome)
    ensures o == Drawn <==> CountPieces(g).0 == CountPieces(g).1
    ensures o == BlackWins <==> CountPieces(g).0 > CountPieces(g).1
  {
    var (b, w) := CountPieces(g);
    if b > w then BlackWins else if w > b then WhiteWins else Drawn
  }

  /** The positional weight of a cell: corners high, cells next to corners negative. */
  function Weight(r: int, c: int): int
    requires InBounds(r, c)
  {
    [[100, -20, 10, 5, 5, 10, -20, 100],
     [-20, -50, -2, -2, -2, -2, -50, -20],
     [10, -2, 5, 1, 1, 5, -2, 10],
     [5, -2, 1, 1, 1, 1, -2, 5],
     [5, -2, 1, 1, 1, 1, -2, 5],
     [10, -2, 5, 1, 1, 5, -2, 10],
     [-20, -50, -2, -2, -2, -2, -50, -20],
     [100, -20, 10, 5, 5, 10, -20, 100]][r][c]
  }

  function EvalFrom(g: Grid, root: int, n: nat): int
    requires n <= 64
  {
    if n == 0 then 0
    else
      var x, y := (n - 1) / 8, (n - 1) % 8;
      EvalFrom(g, root, n - 1) + (if g[x][y] == root then Weight(x, y) else if g[x][y] == Opponent(root) then -Weight(x, y) else 0)
  }

  /** The weighted disc balance from `root`'s side. */
  function Evaluate(g: Grid, root: int): int
  {
    EvalFrom(g, root, 64)
  }

  lemma {:induction false} EvalFromAntisymmetric(g: Grid, root: int, n: nat)
    requires n <= 64 && (root == Black || root == White)
    ensures EvalFrom(g, Opponent(root), n) == -EvalFrom(g, root, n)
    decreases n
  {
    if n > 0 {
      EvalFromAntisymmetric(g, root, n - 1);
    }
  }

  /** Swapping the root player negates the evaluation. */
  lemma EvaluateAntisymmetric(g: Grid, root: int)
    requires root == Black || root == White
    ensures Evaluate(g, Opponent(root)) == -Evaluate(g, root)
  {
    EvalFromAntisymmetric(g, root, 64);
  }

  // ---------------------------------------------------------------------
  // The board object

  datatype Snapshot = Snapshot(grid: Grid, turn: int, winner: Option<Outcome>, passes: int)

  /** The opening position: white on d4 and e5, black on e4 and d5. */
  function InitialGrid(): Grid
  {
    seq(8, i requires 0 <= i < 8 =>
      seq(8, j requires 0 <= j < 8 =>
        if (i, j) == (3, 3) || (i, j) == (4, 4) then White
        else if (i, j) == (3, 4) || (i, j) == (4, 3) then Black
        else Empty))
  }

  /** How many snapshots undo pops from a history of length `n`. */
  function UndoSteps(n: nat): nat { if n >= 2 then 2 else 1 }

  /**
   * The walk of one direction of make_move: the opponent discs met in a
   * row, and whether the run is closed by a disc of `player`.
   */
  method WalkRay(g: Grid, r: int, c: int, dr: int, dc: int, player: int) returns (flip: seq<(int, int)>, closed: bool)
    requires InBounds(r, c) && IsDirection(dr, dc)
    ensures forall s :: 0 <= s < |flip| ==> flip[s] == (Step(r, s + 1, dr), Step(c, s + 1, dc)) && InBounds(flip[s].0, flip[s].1)
    ensures closed && flip != [] <==> Closes(g, r, c, dr, dc, player)
    ensures |flip| == RunLen(g, r, c, dr, dc, Opponent(player), 1)
  {
    var opponent := Opponent(player);
    var nr, nc := r + dr, c + dc;
    flip := [];
    closed := false;
    ghost var t := 1;
    while 0 <= nr < GridSize && 0 <= nc < GridSize
      invariant t >= 1 && nr == Step(r, t, dr) && nc == Step(c, t, dc)
      invariant |flip| == t - 1 && !closed
      invariant forall s :: 0 <= s < |flip| ==> flip[s] == (Step(r, s + 1, dr), Step(c, s + 1, dc)) && InBounds(flip[s].0, flip[s].1)
      invariant RunLen(g, r, c, dr, dc, opponent, 1) == t - 1 + RunLen(g, r, c, dr, dc, opponent, t)
      decreases 8 - t
    {
      StepOn(r, c, dr, dc, t);
      if g[nr][nc] != opponent {
        closed := g[nr][nc] == player;
        break;
      }
      ClosesWalk(g, r, c, dr, dc, player, t);
      flip := flip + [(nr, nc)];
      nr, nc := nr + dr, nc + dc;
      t := t + 1;
    }
    ClosesWalk(g, r, c, dr, dc, player, t);
  }

  class Board {
    var grid: Grid
    var turn: int
    var winner: Option<Outcome>
    var passes: int
    var history: seq<Snapshot>

    constructor ()
      ensures grid == InitialGrid() && turn == Black && winner == None && passes == 0 && history == []
    {
      grid := InitialGrid();
      turn := Black;
      winner := None;
      passes := 0;
      history := [];
    }

    method SaveState()
      modifies this
      ensures history == old(history) + [Snapshot(grid, turn, winner, passes)]
      ensures grid == old(grid) && turn == old(turn) && winner == old(winner) && passes == old(passes)
    {
      history := history + [Snapshot(grid, turn, winner, passes)];
    }

    /**
     * Pops two snapshots (one when only one exists) and restores the
     * last one popped; false, changing nothing, on an empty history.
     */
    method Undo() returns (ok: bool)
      modifies this
      ensures old(history) == [] ==>
        (!ok && grid == old(grid) && turn == old(turn) && winner == old(winner) &&
         passes == old(passes) && history == old(history))
      ensures old(history) != [] ==>
        (ok &&
         var n := |old(history)| - UndoSteps(|old(history)|);
         history == old(history)[..n] && grid == old(history)[n].grid && turn == old(history)[n].turn &&
         winner == old(history)[n].winner && passes == old(history)[n].passes)
    {
      if history == [] {
        return false;
      }
      var steps := if |history| >= 2 then 2 else 1;
      var state: Option<Snapshot> := None;
      var i := 0;
      while i < steps
        invariant 0 <= i <= steps
        invariant history == old(history)[..|old(history)| - i]
        invariant if i == 0 then state == None else state == Some(old(history)[|old(history)| - i])
      {
        if history != [] {
          state := Some(history[|history| - 1]);
          history := history[..|history| - 1];
        }
        i := i + 1;
      }
      if state.Some? {
        grid := state.value.grid;
        turn := state.value.turn;
        winner := state.value.winner;
        passes := state.value.passes;
        return true;
      }
      return false;
    }

    /** Walks from (r, c) along (dr, dc): true when opponent discs are followed by one of `player`'s. */
    method ClosesAlong(r: int, c: int, dr: int, dc: int, player: int) returns (closes: bool)
      requires InBounds(r, c) && IsDirection(dr, dc)
      ensures closes == Closes(grid, r, c, dr, dc, player)
    {
      var opponent := Opponent(player);
      var nr, nc := r + dr, c + dc;
      var foundOpponent := false;
      ghost var t := 1;
      while 0 <= nr < GridSize && 0 <= nc < GridSize
        invariant t >= 1 && nr == Step(r, t, dr) && nc == Step(c, t, dc)
        invariant foundOpponent <==> t > 1
        invariant RunLen(grid, r, c, dr, dc, opponent, 1) == t - 1 + RunLen(grid, r, c, dr, dc, opponent, t)
        decreases 8 - t
      {
        ClosesWalk(grid, r, c, dr, dc, player, t);
        StepOn(r, c, dr, dc, t);
        if grid[nr][nc] == opponent {
          foundOpponent := true;
        } else if grid[nr][nc] == player {
          return foundOpponent;
        } else {
          return false;
        }
        nr, nc := nr + dr, nc + dc;
        t := t + 1;
      }
      ClosesWalk(grid, r, c, dr, dc, player, t);
      return false;
    }

    method IsValidMoveAt(r: int, c: int, player: int) returns (valid: bool)
      requires InBounds(r, c)
      ensures valid == IsValidMove(grid, r, c, player)
    {
      if grid[r][c] != Empty {
        return false;
      }
      var k := 0;
      while k < 8
        invariant 0 <= k <= 8
        invariant forall k' :: 0 <= k' < k ==> !ClosesDir(grid, r, c, k', player)
      {
        var closes := ClosesAlong(r, c, Dir(k).0, Dir(k).1, player);
        if closes {
          assert ClosesDir(grid, r, c, k, player);
          return true;
        }
        k := k + 1;
      }
      return false;
    }

    method GetValidMoves(player: int) returns (moves: seq<(int, int)>)
      ensures moves == ValidMoves(grid, player)
    {
      moves := [];
      var r := 0;
      while r < GridSize
        invariant 0 <= r <= 8
        invariant moves == ValidFrom(grid, player, 8 * r)
      {
        moves := ValidRow(player, r, moves);
        r := r + 1;
      }
    }

    /** One row of get_valid_moves' scan, left to right. */
    method ValidRow(player: int, r: int, moves: seq<(int, int)>) returns (moves': seq<(int, int)>)
      requires 0 <= r < 8 && moves == ValidFrom(grid, player, 8 * r)
      ensures moves' == ValidFrom(grid, player, 8 * r + 8)
    {
      moves' := moves;
      var c := 0;
      while c < GridSize
        invariant 0 <= c <= 8
        invariant moves' == ValidFrom(grid, player, 8 * r + c)
      {
        var valid := IsValidMoveAt(r, c, player);
        ValidFromCell(grid, player, r, c, valid);
        moves' := moves' + if valid then [(r, c)] else [];
        c := c + 1;
      }
    }

    /** Paints the collected cells of a ray, nearest first. */
    method FlipCollected(flip: seq<(int, int)>, player: int, ghost r: int, ghost c: int, ghost dr: int, ghost dc: int)
      requires IsDirection(dr, dc)
      requires forall s :: 0 <= s < |flip| ==> flip[s] == (Step(r, s + 1, dr), Step(c, s + 1, dc)) && InBounds(flip[s].0, flip[s].1)
      modifies this
      ensures grid == Paint(old(grid), r, c, dr, dc, player, |flip|)
      ensures turn == old(turn) && winner == old(winner) && passes == old(passes) && history == old(history)
    {
      GridExt(grid, Paint(old(grid), r, c, dr, dc, player, 0));
      var q := 0;
      while q < |flip|
        invariant 0 <= q <= |flip|
        invariant grid == Paint(old(grid), r, c, dr, dc, player, q)
        invariant turn == old(turn) && winner == old(winner) && passes == old(passes) && history == old(history)
      {
        assert flip[q] == (Step(r, q + 1, dr), Step(c, q + 1, dc)) && InBounds(flip[q].0, flip[q].1);
        PaintStep(old(grid), r, c, dr, dc, player, q);
        grid := grid[flip[q].0 := grid[flip[q].0][flip[q].1 := player]];
        q := q + 1;
      }
    }

    /** One direction of make_move: collect the opponent discs along the ray and flip them if closed. */
    method FlipLine(r: int, c: int, dr: int, dc: int, player: int)
      requires InBounds(r, c) && IsDirection(dr, dc)
      modifies this
      ensures grid == FlipRay(old(grid), r, c, dr, dc, player)
      ensures turn == old(turn) && winner == old(winner) && passes == old(passes) && history == old(history)
    {
      var flip, closed := WalkRay(grid, r, c, dr, dc, player);
      if closed && flip != [] {
        FlipCollected(flip, player, r, c, dr, dc);
      }
    }

    /**
     * False, changing nothing, unless the move is valid; otherwise a
     * snapshot is pushed first, the disc is placed, every closed run is
     * flipped, the turn passes to the opponent and the pass count resets.
     */
    method MakeMove(r: int, c: int, player: int) returns (ok: bool)
      requires InBounds(r, c)
      modifies this
      ensures !IsValidMove(old(grid), r, c, player) ==>
        !ok && grid == old(grid) && turn == old(turn) && winner == old(winner) && passes == old(passes) && history == old(history)
      ensures IsValidMove(old(grid), r, c, player) ==>
        ok && history == old(history) + [Snapshot(old(grid), old(turn), old(winner), old(passes))] &&
        grid == Placed(old(grid), r, c, player) && turn == Opponent(player) && passes == 0 && winner == old(winner)
    {
      var valid := IsValidMoveAt(r, c, player);
      if !valid {
        return false;
      }
      SaveState();
      PlaceAndFlip(r, c, player);
      turn := Opponent(player);
      passes := 0;
      return true;
    }

    /** The disc is placed, then the runs it closes are flipped, direction by direction. */
    method PlaceAndFlip(r: int, c: int, player: int)
      requires InBounds(r, c)
      modifies this
      ensures grid == Placed(old(grid), r, c, player)
      ensures turn == old(turn) && winner == old(winner) && passes == old(passes) && history == old(history)
    {
      ghost var g0 := grid;
      grid := grid[r := grid[r][c := player]];
      GridExt(grid, Flipped(g0, r, c, player, 0));
      var k := 0;
      while k < 8
        invariant 0 <= k <= 8
        invariant grid == Flipped(g0, r, c, player, k)
        invariant turn == old(turn) && winner == old(winner) && passes == old(passes) && history == old(history)
      {
        DirectionStep(g0, r, c, player, k);
        FlipLine(r, c, Dir(k).0, Dir(k).1, player);
        k := k + 1;
      }
    }

    method EndGame()
      modifies this
      ensures winner == Some(Result(grid))
      ensures grid == old(grid) && turn == old(turn) && passes == old(passes) && history == old(history)
    {
      var (b, w) := CountPieces(grid);
      winner := Some(if b > w then BlackWins else if w > b then WhiteWins else Drawn);
    }

    /**
     * When the side to move has no move, the turn passes and the pass
     * count grows; the game ends on a second pass or when the new side
     * cannot move either.
     */
    method CheckState()
      modifies this
      ensures grid == old(grid) && history == old(history)
      ensures ValidMoves(old(grid), old(turn)) != [] ==> turn == old(turn) && passes == old(passes) && winner == old(winner)
      ensures ValidMoves(old(grid), old(turn)) == [] ==>
        turn == Opponent(old(turn)) && passes == old(passes) + 1 &&
        winner == if passes >= 2 || ValidMoves(grid, turn) == [] then Some(Result(grid)) else old(winner)
    {
      var moves := GetValidMoves(turn);
      if moves == [] {
        turn := if turn == Black then White else Black;
        passes := passes + 1;
        var next := GetValidMoves(turn);
        if passes >= 2 || next == [] {
          EndGame();
        }
      }
    }
  }

  /**
   * A valid move followed by undo on a board with no history restores
   * the position: the snapshot pushed by the move is the one popped.
   */
  method MoveThenUndo(b: Board, r: int, c: int, player: int) returns (ok: bool)
    requires InBounds(r, c) && b.history == []
    modifies b
    ensures ok <==> IsValidMove(old(b.grid), r, c, player)
    ensures b.grid == old(b.grid) && b.turn == old(b.turn) && b.winner == old(b.winner) && b.passes == old(b.passes)
    ensures b.history == []
  {
    ok := b.MakeMove(r, c, player);
    if ok {
      var undone := b.Undo();
    }
  }

  // ---------------------------------------------------------------------
  // The search

  /** What the search sees of a board: the grid, and whether the game is decided. */
  datatype Position = Position(grid: Grid, winner: Option<Outcome>)

  function Mover(root: int, maxing: bool): int { if maxing then root else Opponent(root) }

  /** The child of a move; moves come from the valid list, so they are always on the board. */
  function Child(root: int, s: Position, m: (int, int), maxing: bool): Position
  {
    if InBounds(m.0, m.1) then Position(Placed(s.grid, m.0, m.1, Mover(root, maxing)), s.winner) else s
  }

  /** The game tree of the search for `root`: a side with no move passes. */
  function G(root: int): Search.Game<Position, (int, int)>
  {
    Search.Game((s: Position, maxing: bool) => ValidMoves(s.grid, Mover(root, maxing)),
                (s: Position, m: (int, int), maxing: bool) => Child(root, s, m, maxing),
                (s: Position) => s.winner.Some?,
                (s: Position) => Evaluate(s.grid, root),
                Search.Pass, Search.NegInf, Search.PosInf)
  }

  /** With no move for the side to move, the node is worth its pass: the other side, one ply shallower. */
  lemma NoMoveIsPass(root: int, s: Position, depth: nat, maxing: bool)
    requires depth > 0 && s.winner.None? && ValidMoves(s.grid, Mover(root, maxing)) == []
    ensures Search.Minimax(G(root), s, depth, maxing) == Search.Minimax(G(root), s, depth - 1, !maxing)
  {
  }

  /** Every search value is finite: leaves are evaluations and a stuck side passes. */
  lemma ValueFinite(root: int, s: Position, depth: nat, maxing: bool)
    ensures Search.Minimax(G(root), s, depth, maxing).Fin?
  {
    Search.MinimaxFin(G(root), s, depth, maxing);
  }

  /** With a move available, the first child's finite value replaces the initial minus infinity. */
  lemma RootBeatsWorst(root: int, s: Position, depth: nat)
    requires depth > 0 && ValidMoves(s.grid, root) != []
    ensures Search.Beats(true, Search.NegInf, Search.ExtremeOf(Search.ChildValues(G(root), s, depth, true), true, Search.NegInf))
  {
    var vals := Search.ChildValues(G(root), s, depth, true);
    var m := ValidMoves(s.grid, root)[0];
    ValueFinite(root, G(root).apply(s, m, true), depth - 1, false);
    Search.FiniteBeatsWorst(vals, true);
  }

  /** The AI's alpha-beta search for `rootPlayer`; the board is a value, so each child is a copy. */
  method Minimax(board: Position, depth: nat, alpha: Search.Value, beta: Search.Value, maximizing: bool, rootPlayer: int)
    returns (value: Search.Value)
    requires Search.Lt(alpha, beta)
    ensures Search.FailSoft(value, Search.Minimax(G(rootPlayer), board, depth, maximizing), alpha, beta)
  {
    var move;
    value, move := Search.AlphaBeta(G(rootPlayer), board, depth, alpha, beta, maximizing, 0);
  }

  class AI {
    const color: int

    constructor (color: int)
      ensures this.color == color
    {
      this.color := color;
    }

    /**
     * The hint or AI move for `playerColor` (the AI's own colour when
     * absent): None without a valid move, otherwise the first valid move,
     * row by row, whose searched value is strictly greatest.  `pick`
     * stands for the random first guess, which is always replaced.
     */
    method GetBestMove(board: Board, playerColor: Option<int>, depth: nat, pick: nat) returns (best: Option<(int, int)>)
      requires depth > 0
      ensures var p := if playerColor.Some? && playerColor.value != 0 then playerColor.value else color;
        (best.None? <==> ValidMoves(board.grid, p) == []) &&
        (best.Some? ==>
          best.value == ValidMoves(board.grid, p)[Search.Choose(Search.ChildValues(G(p), Position(board.grid, board.winner), depth, true), true, Search.FirstStrict)])
    {
      var p := if playerColor.Some? && playerColor.value != 0 then playerColor.value else color;
      var s := Position(board.grid, board.winner);
      var moves := board.GetValidMoves(p);
      if moves == [] {
        return None;
      }
      var k := Search.RootChoice(G(p), s, depth, Search.NegInf, Search.PosInf, true, Search.NegInf, pick);
      RootBeatsWorst(p, s, depth);
      best := Some(moves[k.value]);
    }
  }
}

/**
 * Connect four on a 6 x 7 grid whose row 0 is the bottom row: discs drop
 * to the lowest empty cell of a column, four in a line wins, and the AI
 * plays a depth-limited alpha-beta search whose leaves are scored by
 * counting 4-cell windows.
 */
module ConnectFour {
  import opened Options
  import Search

  const RowCount := 6
  const ColumnCount := 7
  const Empty := 0
  const PlayerPiece := 1
  const AiPiece := 2

  /** The search values of a decided position. */
  const AiWinScore := 100000000000000
  const PlayerWinScore := -10000000000000

  /** grid[r][c], r = 0 the bottom row. */
  type Grid = g: seq<seq<int>> | |g| == 6 && forall r :: 0 <= r < 6 ==> |g[r]| == 7
    witness seq(6, _ => seq(7, _ => 0))

  function Drop(g: Grid, row: nat, col: nat, piece: int): (r: Grid)
    requires row < 6 && col < 7
    ensures r[row][col] == piece
    ensures forall i, j :: 0 <= i < 6 && 0 <= j < 7 && (i, j) != (row, col) ==> r[i][j] == g[i][j]
  {
    g[row := g[row][col := piece]]
  }

  /** A column can take a disc while its top cell is empty. */
  predicate IsValidLocation(g: Grid, col: nat)
    requires col < 7
  {
    g[RowCount - 1][col] == Empty
  }

  function FirstEmptyFrom(g: Grid, col: nat, r: nat): (o: Option<nat>)
    requires col < 7 && r <= 6
    ensures o.Some? ==> r <= o.value < 6 && g[o.value][col] == Empty &&
                        forall i :: r <= i < o.value ==> g[i][col] != Empty
    ensures o.None? ==> forall i :: r <= i < 6 ==> g[i][col] != Empty
    decreases 6 - r
  {
    if r == 6 then None else if g[r][col] == Empty then Some(r) else FirstEmptyFrom(g, col, r + 1)
  }

  /** The lowest empty row of a column, or None when it is full. */
  function NextOpenRow(g: Grid, col: nat): (o: Option<nat>)
    requires col < 7
    ensures o.Some? ==> o.value < 6 && g[o.value][col] == Empty && forall i :: 0 <= i < o.value ==> g[i][col] != Empty
    ensures o.None? <==> forall i :: 0 <= i < 6 ==> g[i][col] != Empty
  {
    FirstEmptyFrom(g, col, 0)
  }

  /** A column whose top cell is empty always has an open row. */
  lemma ValidHasOpenRow(g: Grid, col: nat)
    requires col < 7 && IsValidLocation(g, col)
    ensures NextOpenRow(g, col).Some?
  {
    assert g[5][col] == Empty;
  }

  // ---------------------------------------------------------------------
  // Four in a line

  /** The four cells from (r, c) in direction (dr, dc) all hold `piece`. */
  predicate Four(g: Grid, piece: int, r: int, c: int, dr: int, dc: int)
    requires 0 <= r < 6 && 0 <= c < 7 && 0 <= r + 3 * dr < 6 && 0 <= c + 3 * dc < 7
  {
    g[r][c] == piece && g[r + dr][c + dc] == piece && g[r + 2 * dr][c + 2 * dc] == piece && g[r + 3 * dr][c + 3 * dc] == piece
  }

  /** The four scans of winning_move, with their exact start ranges. */
  predicate WinningMove(g: Grid, piece: int)
  {
    (exists c, r | 0 <= c < 4 && 0 <= r < 6 :: Four(g, piece, r, c, 0, 1)) ||
    (exists c, r | 0 <= c < 7 && 0 <= r < 3 :: Four(g, piece, r, c, 1, 0)) ||
    (exists c, r | 0 <= c < 4 && 0 <= r < 3 :: Four(g, piece, r, c, 1, 1)) ||
    (exists c, r | 0 <= c < 4 && 3 <= r < 6 :: Four(g, piece, r, c, -1, 1))
  }

  predicate Direction(dr: int, dc: int) { -1 <= dr <= 1 && -1 <= dc <= 1 && (dr, dc) != (0, 0) }

  /** Geometric reference: four equal discs on some line in any of the eight directions. */
  ghost predicate FourInLine(g: Grid, piece: int)
  {
    exists r, c, dr, dc | Direction(dr, dc) && 0 <= r < 6 && 0 <= c < 7 && 0 <= r + 3 * dr < 6 && 0 <= c + 3 * dc < 7 ::
      Four(g, piece, r, c, dr, dc)
  }

  /** The scan ranges of winning_move find every line of four and read only cells of the grid. */
  lemma WinningMoveIsFourInLine(g: Grid, piece: int)
    ensures WinningMove(g, piece) <==> FourInLine(g, piece)
  {
    if FourInLine(g, piece) {
      var r, c, dr, dc :| Direction(dr, dc) && 0 <= r < 6 && 0 <= c < 7 && 0 <= r + 3 * dr < 6 && 0 <= c + 3 * dc < 7 &&
        Four(g, piece, r, c, dr, dc);
      // Read backwards, a line is the same line from its other end.
      if dc < 0 || (dc == 0 && dr < 0) {
        assert Four(g, piece, r + 3 * dr, c + 3 * dc, -dr, -dc);
      }
    }
  }

  /** Dropping a disc of another colour never undoes a win. */
  lemma WinSurvivesDrop(g: Grid, piece: int, row: nat, col: nat, other: int)
    requires row < 6 && col < 7 && g[row][col] == Empty && piece != Empty
    requires WinningMove(g, piece)
    ensures WinningMove(Drop(g, row, col, other), piece)
  {
    var g' := Drop(g, row, col, other);
    if exists c, r | 0 <= c < 4 && 0 <= r < 6 :: Four(g, piece, r, c, 0, 1) {
      var c, r :| 0 <= c < 4 && 0 <= r < 6 && Four(g, piece, r, c, 0, 1);
      assert Four(g', piece, r, c, 0, 1);
    } else if exists c, r | 0 <= c < 7 && 0 <= r < 3 :: Four(g, piece, r, c, 1, 0) {
      var c, r :| 0 <= c < 7 && 0 <= r < 3 && Four(g, piece, r, c, 1, 0);
      assert Four(g', piece, r, c, 1, 0);
    } else if exists c, r | 0 <= c < 4 && 0 <= r < 3 :: Four(g, piece, r, c, 1, 1) {
      var c, r :| 0 <= c < 4 && 0 <= r < 3 && Four(g, piece, r, c, 1, 1);
      assert Four(g', piece, r, c, 1, 1);
    } else {
      var c, r :| 0 <= c < 4 && 3 <= r < 6 && Four(g, piece, r, c, -1, 1);
      assert Four(g', piece, r, c, -1, 1);
    }
  }

  // ---------------------------------------------------------------------
  // Heuristic evaluation

  function Count(w: seq<int>, x: int): (n: nat)
    ensures n <= |w|
  {
    if w == [] then 0 else Count(w[..|w| - 1], x) + (if w[|w| - 1] == x then 1 else 0)
  }

  lemma {:induction false} CountsDisjoint(w: seq<int>, x: int, y: int)
    requires x != y
    ensures Count(w, x) + Count(w, y) <= |w|
  {
    if w != [] {
      CountsDisjoint(w[..|w| - 1], x, y);
    }
  }

  function Opponent(piece: int): int { if piece == AiPiece then PlayerPiece else AiPiece }

  /**
   * The score of one 4-cell window for `piece`: 100 for four own discs,
   * 5 for three and an empty cell, 2 for two and two empty cells, and
   * 4 less when the opponent has three and an empty cell.
   */
  function EvaluateWindow(w: seq<int>, piece: int): int
  {
    var opp := Opponent(piece);
    var own := if Count(w, piece) == 4 then 100
               else if Count(w, piece) == 3 && Count(w, Empty) == 1 then 5
               else if Count(w, piece) == 2 && Count(w, Empty) == 2 then 2
               else 0;
    own - (if Count(w, opp) == 3 && Count(w, Empty) == 1 then 4 else 0)
  }

  /**
   * On a window of four cells (the only kind scored) the own bonus and
   * the opponent penalty never combine: the score is one of 100, 5, 2, 0
   * or -4, and it is 100 exactly on four own discs.
   */
  lemma EvaluateWindowValues(w: seq<int>, piece: int)
    requires |w| == 4 && (piece == PlayerPiece || piece == AiPiece)
    ensures EvaluateWindow(w, piece) in {100, 5, 2, 0, -4}
    ensures EvaluateWindow(w, piece) == 100 <==> Count(w, piece) == 4
    ensures EvaluateWindow(w, piece) == -4 <==> Count(w, Opponent(piece)) == 3 && Count(w, Empty) == 1
  {
    CountsDisjoint(w, piece, Opponent(piece));
    CountsDisjoint(w, piece, Empty);
    CountsDisjoint(w, Opponent(piece), Empty);
  }

  /** The cells of the window from (r, c) in direction (dr, dc). */
  function Window(g: Grid, r: int, c: int, dr: int, dc: int): (w: seq<int>)
    requires 0 <= r < 6 && 0 <= c < 7 && 0 <= r + 3 * dr < 6 && 0 <= c + 3 * dc < 7
    ensures |w| == 4
  {
    [g[r][c], g[r + dr][c + dc], g[r + 2 * dr][c + 2 * dc], g[r + 3 * dr][c + 3 * dc]]
  }

  /** The window starts scored by score_position, in its loop order. */
  function HorizontalStarts(): seq<(int, int)> { seq(24, k => (k / 4, k % 4)) }
  function VerticalStarts(): seq<(int, int)> { seq(21, k => (k % 3, k / 3)) }
  function PositiveStarts(): seq<(int, int)> { seq(12, k => (k / 4, k % 4)) }
  function NegativeStarts(): seq<(int, int)> { seq(12, k => (k / 4 + 3, k % 4)) }

  predicate StartsFit(starts: seq<(int, int)>, dr: int, dc: int)
  {
    forall k :: 0 <= k < |starts| ==>
      0 <= starts[k].0 < 6 && 0 <= starts[k].1 < 7 && 0 <= starts[k].0 + 3 * dr < 6 && 0 <= starts[k].1 + 3 * dc < 7
  }

  function WindowSum(g: Grid, piece: int, starts: seq<(int, int)>, dr: int, dc: int): (s: int)
    requires StartsFit(starts, dr, dc)
  {
    if starts == [] then 0
    else
      var (r, c) := starts[|starts| - 1];
      WindowSum(g, piece, starts[..|starts| - 1], dr, dc) + EvaluateWindow(Window(g, r, c, dr, dc), piece)
  }

  lemma {:induction false} WindowSumBounds(g: Grid, piece: int, starts: seq<(int, int)>, dr: int, dc: int)
    requires StartsFit(starts, dr, dc) && (piece == PlayerPiece || piece == AiPiece)
    ensures -4 * |starts| <= WindowSum(g, piece, starts, dr, dc) <= 100 * |starts|
  {
    if starts != [] {
      var (r, c) := starts[|starts| - 1];
      WindowSumBounds(g, piece, starts[..|starts| - 1], dr, dc);
      EvaluateWindowValues(Window(g, r, c, dr, dc), piece);
    }
  }

  function CenterCount(g: Grid, piece: int, n: nat): (k: nat)
    requires n <= 6
    ensures k <= n
  {
    if n == 0 then 0 else CenterCount(g, piece, n - 1) + (if g[n - 1][ColumnCount / 2] == piece then 1 else 0)
  }

  /** Every window that score_position reads lies inside the grid. */
  lemma StartsInGrid()
    ensures StartsFit(HorizontalStarts(), 0, 1) && StartsFit(VerticalStarts(), 1, 0)
    ensures StartsFit(PositiveStarts(), 1, 1) && StartsFit(NegativeStarts(), -1, 1)
  {
  }

  /** Three points per own disc in the centre column plus every window's score. */
  function ScorePosition(g: Grid, piece: int): int
  {
    StartsInGrid();
    CenterCount(g, piece, 6) * 3
    + WindowSum(g, piece, HorizontalStarts(), 0, 1)
    + WindowSum(g, piece, VerticalStarts(), 1, 0)
    + WindowSum(g, piece, PositiveStarts(), 1, 1)
    + WindowSum(g, piece, NegativeStarts(), -1, 1)
  }

  /**
   * The heuristic never reaches the value of a decided game: it stays
   * within [-276, 6918] over the 69 windows, so a win is always preferred
   * to any undecided position and a loss is always avoided.
   */
  lemma ScorePositionBounds(g: Grid, piece: int)
    requires piece == PlayerPiece || piece == AiPiece
    ensures -276 <= ScorePosition(g, piece) <= 6918
    ensures PlayerWinScore < ScorePosition(g, piece) < AiWinScore
  {
    StartsInGrid();
    WindowSumBounds(g, piece, HorizontalStarts(), 0, 1);
    WindowSumBounds(g, piece, VerticalStarts(), 1, 0);
    WindowSumBounds(g, piece, PositiveStarts(), 1, 1);
    WindowSumBounds(g, piece, NegativeStarts(), -1, 1);
  }

  // ---------------------------------------------------------------------
  // The search

  function ValidBelow(g: Grid, n: nat): (cols: seq<nat>)
    requires n <= 7
    ensures forall c: nat :: c in cols <==> c < n && IsValidLocation(g, c)
    ensures forall i, j :: 0 <= i < j < |cols| ==> cols[i] < cols[j]
    ensures forall i :: 0 <= i < |cols| ==> cols[i] < n
  {
    if n == 0 then [] else ValidBelow(g, n - 1) + (if IsValidLocation(g, n - 1) then [n - 1] else [])
  }

  /** The columns that can take a disc, left to right. */
  function ValidLocations(g: Grid): (cols: seq<nat>)
    ensures forall c: nat :: c in cols <==> c < 7 && IsValidLocation(g, c)
    ensures forall i, j :: 0 <= i < j < |cols| ==> cols[i] < cols[j]
    ensures forall i :: 0 <= i < |cols| ==> cols[i] < 7
  {
    ValidBelow(g, 7)
  }

  predicate IsTerminalNode(g: Grid)
  {
    WinningMove(g, PlayerPiece) || WinningMove(g, AiPiece) || |ValidLocations(g)| == 0
  }

  /** What minimax returns at a leaf: the decided result, or the heuristic at depth 0. */
  function Leaf(g: Grid): int
  {
    if IsTerminalNode(g) then
      if WinningMove(g, AiPiece) then AiWinScore
      else if WinningMove(g, PlayerPiece) then PlayerWinScore
      else 0
    else ScorePosition(g, AiPiece)
  }

  function Moves(g: Grid, maxing: bool): seq<nat> { ValidLocations(g) }

  /** The child of dropping the mover's disc (the AI's when maximizing) into a column. */
  function Apply(g: Grid, col: nat, maxing: bool): Grid
  {
    if col < 7 && NextOpenRow(g, col).Some? then Drop(g, NextOpenRow(g, col).value, col, if maxing then AiPiece else PlayerPiece)
    else g
  }

  const G: Search.Game<Grid, nat> :=
    Search.Game(Moves, Apply, IsTerminalNode, Leaf, Search.Draw, Search.NegInf, Search.PosInf)

  /**
   * A node that is not terminal always has a valid column, so the random
   * first guess is never drawn from an empty list and the Draw policy is
   * never consulted.
   */
  lemma NonTerminalHasMove(g: Grid)
    requires !IsTerminalNode(g)
    ensures |ValidLocations(g)| > 0 && ValidLocations(g)[0] < 7
  {
  }

  /** Every node's value is finite, and a decided node is valued by its result. */
  lemma ValueFinite(g: Grid, depth: nat, maxing: bool)
    ensures Search.Minimax(G, g, depth, maxing).Fin?
    ensures IsTerminalNode(g) ==> Search.Minimax(G, g, depth, maxing).n in {AiWinScore, PlayerWinScore, 0}
  {
    Search.MinimaxFin(G, g, depth, maxing);
  }

  /**
   * The AI's alpha-beta search.  The board is a value, so each child is
   * searched on its own copy and the caller's board is unchanged.  The
   * value is the minimax value whenever that lies inside the window; the
   * column is a valid one exactly when the node is searched below, and
   * it is then the leftmost column with the best value.  `pick` stands
   * for the random first guess, which is always replaced.
   */
  method Minimax(board: Grid, depth: nat, alpha: Search.Value, beta: Search.Value, maximizingPlayer: bool, pick: nat)
    returns (column: Option<nat>, value: Search.Value)
    requires Search.Lt(alpha, beta)
    ensures Search.FailSoft(value, Search.Minimax(G, board, depth, maximizingPlayer), alpha, beta)
    ensures column.Some? <==> depth > 0 && !IsTerminalNode(board)
    ensures column.Some? ==> column.value < 7 && IsValidLocation(board, column.value)
    ensures column.Some? && Search.InWindow(alpha, Search.Minimax(G, board, depth, maximizingPlayer), beta) ==>
      column.value == ValidLocations(board)[Search.Choose(Search.ChildValues(G, board, depth, maximizingPlayer), maximizingPlayer, Search.FirstStrict)]
  {
    if depth > 0 && !IsTerminalNode(board) {
      NonTerminalHasMove(board);
    }
    var best;
    value, best := Search.AlphaBeta(G, board, depth, alpha, beta, maximizingPlayer, pick);
    column := if best.Some? then Some(ValidLocations(board)[best.value]) else None;
  }

  /**
   * The AI's turn: a depth-5 search from the full (-inf, +inf) window.
   * The value is exactly the minimax value, the same as a search without
   * cut-offs, and on an undecided board the column is the leftmost best.
   */
  method AiColumn(board: Grid, pick: nat) returns (column: Option<nat>, value: Search.Value)
    ensures value == Search.Minimax(G, board, 5, true) && value.Fin?
    ensures column.Some? <==> !IsTerminalNode(board)
    ensures column.Some? ==>
      column.value < 7 && IsValidLocation(board, column.value) &&
      column.value == ValidLocations(board)[Search.Choose(Search.ChildValues(G, board, 5, true), true, Search.FirstStrict)]
  {
    column, value := Minimax(board, 5, Search.NegInf, Search.PosInf, true, pick);
    Search.FailSoftExact(value, Search.Minimax(G, board, 5, true), Search.NegInf, Search.PosInf);
    ValueFinite(board, 5, true);
  }

  // ---------------------------------------------------------------------
  // The board object

  datatype Turn = PlayerTurn | AiTurn

  class Board {
    var grid: Grid
    var gameOver: bool
    var winner: Option<string>
    var turn: Turn

    /** An empty grid; the first mover, drawn at random by the game, is a parameter. */
    constructor (first: Turn)
      ensures grid == seq(6, _ => seq(7, _ => Empty))
      ensures !gameOver && winner == None && turn == first
    {
      grid := seq(6, _ => seq(7, _ => Empty));
      gameOver := false;
      winner := None;
      turn := first;
    }

    method DropPiece(row: nat, col: nat, piece: int)
      requires row < 6 && col < 7
      modifies this
      ensures grid == Drop(old(grid), row, col, piece)
      ensures gameOver == old(gameOver) && winner == old(winner) && turn == old(turn)
    {
      grid := Drop(grid, row, col, piece);
    }

    /** The lowest empty row of a column, scanning upwards from the bottom. */
    method GetNextOpenRow(col: nat) returns (row: Option<nat>)
      requires col < 7
      ensures row == NextOpenRow(grid, col)
    {
      var r := 0;
      while r < RowCount
        invariant 0 <= r <= 6
        invariant FirstEmptyFrom(grid, col, r) == NextOpenRow(grid, col)
      {
        if grid[r][col] == Empty {
          return Some(r);
        }
        r := r + 1;
      }
      return None;
    }
  }
}

/**
 * Checkers against an AI.  Pieces are red (the human, moving up the
 * board) and white (the AI, moving down); kings move both ways.  Move
 * generation looks one diagonal square ahead, or two when the first
 * holds an opponent; the AI is plain minimax over copied boards.
 */
module Checkers {
  import opened Options
  import Search

  datatype Color = Red | White
  datatype Piece = Piece(color: Color, king: bool)
  datatype Cell = Empty | Holds(piece: Piece)

  type Grid = g: seq<seq<Cell>> | |g| == 8 && forall r :: 0 <= r < 8 ==> |g[r]| == 8
    witness seq(8, _ => seq(8, _ => Empty))

  type Square = (int, int)

  predicate OnBoard(r: int, c: int) { 0 <= r < 8 && 0 <= c < 8 }

  /** A piece object as the game hands it around: the piece with its own row and col fields. */
  datatype Placed = Placed(row: int, col: int, piece: Piece)

  /** The piece object really stands where its row and col say. */
  predicate Located(g: Grid, q: Placed) {
    OnBoard(q.row, q.col) && g[q.row][q.col] == Holds(q.piece)
  }

  /** A dictionary from landing square to jumped pieces, in insertion order. */
  type Moves = seq<(Square, seq<Placed>)>

  /** The board's grid and its four counters. */
  datatype Position = Position(grid: Grid, redLeft: int, whiteLeft: int, redKings: int, whiteKings: int)

  datatype Outcome = AiWins | RedWins

  function Max(a: int, b: int): int { if a >= b then a else b }
  function Min(a: int, b: int): int { if a <= b then a else b }

  function Set(g: Grid, r: int, c: int, x: Cell): Grid
    requires OnBoard(r, c)
  {
    g[r := g[r][c := x]]
  }

  // ---------------------------------------------------------------------
  // Counting pieces

  function Is(x: Cell, color: Color): nat { if x.Holds? && x.piece.color == color then 1 else 0 }

  /** The number of `color` pieces in a row. */
  function CountRow(row: seq<Cell>, color: Color): nat
  {
    if row == [] then 0 else CountRow(row[..|row| - 1], color) + Is(row[|row| - 1], color)
  }

  /** The number of `color` pieces in the first `n` rows. */
  function CountRows(g: Grid, n: nat, color: Color): nat
    requires n <= 8
  {
    if n == 0 then 0 else CountRows(g, n - 1, color) + CountRow(g[n - 1], color)
  }

  function Count(g: Grid, color: Color): nat { CountRows(g, 8, color) }

  lemma {:induction false} CountRowSet(row: seq<Cell>, c: nat, x: Cell, color: Color)
    requires c < |row|
    ensures CountRow(row[c := x], color) == CountRow(row, color) - Is(row[c], color) + Is(x, color)
    decreases |row|
  {
    var n := |row| - 1;
    assert row[c := x][..n] == if c == n then row[..n] else row[..n][c := x];
    if c < n {
      CountRowSet(row[..n], c, x, color);
    }
  }

  lemma {:induction false} CountRowsSet(g: Grid, n: nat, r: int, c: int, x: Cell, color: Color)
    requires n <= 8 && OnBoard(r, c)
    ensures CountRows(Set(g, r, c, x), n, color) ==
      if r < n then CountRows(g, n, color) - Is(g[r][c], color) + Is(x, color) else CountRows(g, n, color)
  {
    if n > 0 {
      CountRowsSet(g, n - 1, r, c, x, color);
      if r == n - 1 {
        CountRowSet(g[r], c, x, color);
      }
    }
  }

  /** Writing one square changes the count by what left and what arrived. */
  lemma CountSet(g: Grid, r: int, c: int, x: Cell, color: Color)
    requires OnBoard(r, c)
    ensures Count(Set(g, r, c, x), color) == Count(g, color) - Is(g[r][c], color) + Is(x, color)
  {
    CountRowsSet(g, 8, r, c, x, color);
  }

  /** The counters agree with the pieces on the grid. */
  predicate Counted(s: Position) {
    s.redLeft == Count(s.grid, Red) && s.whiteLeft == Count(s.grid, White)
  }

  // ---------------------------------------------------------------------
  // Setting up

  /** White on rows 0-2, red on rows 5-7, on the squares with col % 2 == (row + 1) % 2. */
  function InitialGrid(): Grid
  {
    seq(8, r => seq(8, c =>
      if c % 2 == (r + 1) % 2 then
        if r < 3 then Holds(Piece(White, false)) else if r > 4 then Holds(Piece(Red, false)) else Empty
      else Empty))
  }

  function InitialPosition(): Position { Position(InitialGrid(), 12, 12, 0, 0) }

  lemma CountRowAppend(a: seq<Cell>, k: nat, color: Color)
    requires k < |a|
    ensures CountRow(a[..k + 1], color) == CountRow(a[..k], color) + Is(a[k], color)
  {
    assert a[..k + 1][..k] == a[..k];
  }

  lemma CountRow8(a: seq<Cell>, color: Color)
    requires |a| == 8
    ensures CountRow(a, color) == Is(a[0], color) + Is(a[1], color) + Is(a[2], color) + Is(a[3], color) +
                                  Is(a[4], color) + Is(a[5], color) + Is(a[6], color) + Is(a[7], color)
  {
    assert a[..0] == [];
    CountRowAppend(a, 0, color); CountRowAppend(a, 1, color); CountRowAppend(a, 2, color);
    CountRowAppend(a, 3, color); CountRowAppend(a, 4, color); CountRowAppend(a, 5, color);
    CountRowAppend(a, 6, color); CountRowAppend(a, 7, color);
    assert a[..8] == a;
  }

  /** A row holding `x` on every other square, starting at column 1 (`odd`) or 0. */
  function Alternating(x: Cell, odd: bool): seq<Cell>
  {
    seq(8, c => if (c % 2 == 1) == odd then x else Empty)
  }

  lemma AlternatingCount(x: Cell, odd: bool, color: Color)
    ensures CountRow(Alternating(x, odd), color) == 4 * Is(x, color)
  {
    CountRow8(Alternating(x, odd), color);
  }

  /** Row `r` of the opening grid alternates its starting colour, from column 1 on even rows. */
  lemma InitialRow(r: nat)
    requires r < 8
    ensures InitialGrid()[r] ==
      Alternating(if r < 3 then Holds(Piece(White, false)) else if r > 4 then Holds(Piece(Red, false)) else Empty,
                  r % 2 == 0)
  {
    var x := if r < 3 then Holds(Piece(White, false)) else if r > 4 then Holds(Piece(Red, false)) else Empty;
    forall c | 0 <= c < 8
      ensures InitialGrid()[r][c] == Alternating(x, r % 2 == 0)[c]
    {
      assert (c % 2 == (r + 1) % 2) == ((c % 2 == 1) == (r % 2 == 0));
    }
  }

  /** The pieces of a row of the opening grid: four of the colour that starts there. */
  lemma InitialRowCount(r: nat, color: Color)
    requires r < 8
    ensures CountRow(InitialGrid()[r], color) ==
      if (color == White && r < 3) || (color == Red && r > 4) then 4 else 0
  {
    InitialRow(r);
    AlternatingCount(if r < 3 then Holds(Piece(White, false)) else if r > 4 then Holds(Piece(Red, false)) else Empty,
                     r % 2 == 0, color);
  }

  /** The opening counters of twelve pieces a side are the pieces on the board. */
  lemma InitialCounted()
    ensures Counted(InitialPosition())
  {
    var g := InitialGrid();
    forall color: Color ensures Count(g, color) == 12 {
      InitialRowCount(0, color); InitialRowCount(1, color); InitialRowCount(2, color);
      InitialRowCount(3, color); InitialRowCount(4, color); InitialRowCount(5, color);
      InitialRowCount(6, color); InitialRowCount(7, color);
      assert CountRows(g, 3, color) == if color == White then 12 else 0;
      assert CountRows(g, 6, color) == if color == White then 12 else 4;
    }
  }

  // ---------------------------------------------------------------------
  // Moving, removing, scoring

  /**
   * The board after the piece on `from` moves to `to`: the two squares
   * swap contents and the piece is crowned on row 0 or 7, which credits
   * its colour's king counter whether or not it already was a king.
   */
  function MoveTo(s: Position, from: Square, to: Square): Position
    requires OnBoard(from.0, from.1) && OnBoard(to.0, to.1) && s.grid[from.0][from.1].Holds?
  {
    var p := s.grid[from.0][from.1].piece;
    var crowned := to.0 == 7 || to.0 == 0;
    var swapped := Set(Set(s.grid, from.0, from.1, s.grid[to.0][to.1]), to.0, to.1, s.grid[from.0][from.1]);
    Position(
      if crowned then Set(swapped, to.0, to.1, Holds(p.(king := true))) else swapped,
      s.redLeft, s.whiteLeft,
      if crowned && p.color != White then s.redKings + 1 else s.redKings,
      if crowned && p.color == White then s.whiteKings + 1 else s.whiteKings)
  }

  /** Every piece to remove stands where it says. */
  predicate AllOnBoard(pieces: seq<Placed>) {
    forall q :: q in pieces ==> OnBoard(q.row, q.col)
  }

  /** The `color` pieces in a list. */
  function CountPlaced(pieces: seq<Placed>, color: Color): nat
  {
    if pieces == [] then 0
    else CountPlaced(pieces[..|pieces| - 1], color) + (if pieces[|pieces| - 1].piece.color == color then 1 else 0)
  }

  /**
   * The board after emptying the square of each listed piece in turn;
   * each piece takes one off its colour's counter.
   */
  function RemoveAll(s: Position, pieces: seq<Placed>): (s': Position)
    requires AllOnBoard(pieces)
    ensures s'.redLeft == s.redLeft - CountPlaced(pieces, Red)
    ensures s'.whiteLeft == s.whiteLeft - CountPlaced(pieces, White)
    ensures s'.redKings == s.redKings && s'.whiteKings == s.whiteKings
    ensures forall i :: 0 <= i < |pieces| ==> s'.grid[pieces[i].row][pieces[i].col] == Empty
  {
    if pieces == [] then s
    else
      var t := RemoveAll(s, pieces[..|pieces| - 1]);
      var q := pieces[|pieces| - 1];
      Position(Set(t.grid, q.row, q.col, Empty),
        if q.piece.color == Red then t.redLeft - 1 else t.redLeft,
        if q.piece.color == Red then t.whiteLeft else t.whiteLeft - 1,
        t.redKings, t.whiteKings)
  }

  /** AI WINS once red has no pieces left, else RED WINS once white has none. */
  function Winner(s: Position): (w: Option<Outcome>)
    ensures w == Some(AiWins) <==> s.redLeft <= 0
    ensures w == Some(RedWins) <==> s.redLeft > 0 && s.whiteLeft <= 0
    ensures w == None <==> s.redLeft > 0 && s.whiteLeft > 0
  {
    if s.redLeft <= 0 then Some(AiWins) else if s.whiteLeft <= 0 then Some(RedWins) else None
  }

  /** The AI's heuristic as the game computes it, with its half-point kings. */
  function Heuristic(s: Position): real
  {
    (s.whiteLeft - s.redLeft) as real + (s.whiteKings as real * 0.5 - s.redKings as real * 0.5)
  }

  /** The heuristic in half points, so that it is an integer. */
  function Evaluate(s: Position): (e: int)
    ensures e as real == 2.0 * Heuristic(s)
  {
    2 * (s.whiteLeft - s.redLeft) + (s.whiteKings - s.redKings)
  }

  /** Doubling keeps the order of any two positions, ties included. */
  lemma EvaluateOrder(a: Position, b: Position)
    ensures Evaluate(a) <= Evaluate(b) <==> Heuristic(a) <= Heuristic(b)
    ensures Evaluate(a) == Evaluate(b) <==> Heuristic(a) == Heuristic(b)
  {
  }

  /** A move onto an empty square keeps both colours' counts of pieces on the board. */
  lemma MoveKeepsCounts(s: Position, from: Square, to: Square, color: Color)
    requires OnBoard(from.0, from.1) && OnBoard(to.0, to.1) && s.grid[from.0][from.1].Holds?
    requires s.grid[to.0][to.1] == Empty
    ensures Count(MoveTo(s, from, to).grid, color) == Count(s.grid, color)
  {
    var g, x := s.grid, s.grid[from.0][from.1];
    var g1 := Set(g, from.0, from.1, Empty);
    CountSet(g, from.0, from.1, Empty, color);
    CountSet(g1, to.0, to.1, x, color);
    var g2 := Set(g1, to.0, to.1, x);
    CountSet(g2, to.0, to.1, Holds(x.piece.(king := true)), color);
  }

  /**
   * Removing pieces that stand on distinct squares takes each off both
   * the grid's count and its counter.
   */
  lemma {:induction false} RemoveKeepsCounted(s: Position, pieces: seq<Placed>)
    requires AllOnBoard(pieces) && Counted(s)
    requires forall i :: 0 <= i < |pieces| ==> Located(s.grid, pieces[i])
    requires forall i, j :: 0 <= i < j < |pieces| ==> (pieces[i].row, pieces[i].col) != (pieces[j].row, pieces[j].col)
    ensures Counted(RemoveAll(s, pieces))
  {
    if pieces != [] {
      var init := pieces[..|pieces| - 1];
      var t := RemoveAll(s, init);
      var q := pieces[|pieces| - 1];
      RemoveKeepsCounted(s, init);
      RemoveLeaves(s, init, q);
      CountSet(t.grid, q.row, q.col, Empty, Red);
      CountSet(t.grid, q.row, q.col, Empty, White);
    }
  }

  /** Removing pieces leaves every other square as it was. */
  lemma {:induction false} RemoveLeaves(s: Position, pieces: seq<Placed>, q: Placed)
    requires AllOnBoard(pieces) && OnBoard(q.row, q.col)
    requires forall i :: 0 <= i < |pieces| ==> (pieces[i].row, pieces[i].col) != (q.row, q.col)
    ensures RemoveAll(s, pieces).grid[q.row][q.col] == s.grid[q.row][q.col]
  {
    if pieces != [] {
      RemoveLeaves(s, pieces[..|pieces| - 1], q);
    }
  }

  // ---------------------------------------------------------------------
  // Move generation

  /** Assigns `v` to key `k`: in place when the key is present, appended otherwise. */
  function Put(d: Moves, k: Square, v: seq<Placed>): Moves
  {
    if d == [] then [(k, v)]
    else if d[0].0 == k then [(k, v)] + d[1..]
    else [d[0]] + Put(d[1..], k, v)
  }

  /** `d.update(e)`: puts the entries of `e` into `d` in order. */
  function Update(d: Moves, e: Moves): Moves
    decreases |e|
  {
    if e == [] then d else Update(Put(d, e[0].0, e[0].1), e[1..])
  }

  predicate NotKey(d: Moves, k: Square) { forall i :: 0 <= i < |d| ==> d[i].0 != k }

  lemma {:induction false} PutNew(d: Moves, k: Square, v: seq<Placed>)
    requires NotKey(d, k)
    ensures Put(d, k, v) == d + [(k, v)]
  {
    if d != [] {
      PutNew(d[1..], k, v);
    }
  }

  /** The iterations left in `range(r, stop, step)`. */
  function Remaining(r: int, stop: int, step: int): nat
  {
    if step == 1 then (if stop > r then stop - r else 0) else (if r > stop then r - stop else 0)
  }

  /** What a traversal needs to stay on the board: the rows end inside -1..8 and the column starts on the near side. */
  predicate WalkBounds(r: int, stop: int, step: int, c: int, dir: int) {
    RowBounds(r, stop, step) && ((dir == -1 && c <= 7) || (dir == 1 && 0 <= c))
  }

  predicate RowBounds(r: int, stop: int, step: int) {
    (step == -1 && r <= 7 && -1 <= stop) || (step == 1 && 0 <= r && stop <= 8)
  }

  /**
   * Three rows on from `r`, clamped to -1..8: where a search from row
   * r + step stops, and where the search after a jump at row `r` starts.
   */
  function Beyond(r: int, step: int): int { if step == -1 then Max(r - 3, -1) else Min(r + 3, 8) }

  /** Every landing square is empty and every jumped piece stands on the board. */
  predicate Landings(g: Grid, m: Moves) {
    forall x :: x in m ==>
      OnBoard(x.0.0, x.0.1) && g[x.0.0][x.0.1] == Empty &&
      forall q :: q in x.1 ==> Located(g, q)
  }

  /**
   * The traversal loop from row `r` and column `c`, moving `dir` columns
   * per row (left -1, right +1), having jumped `skipped` before the
   * search began and `last` in this search.  It stops at the board's
   * edge, at an own piece, or at the first empty square, where it
   * records a move and, after a jump, searches on from `Beyond`.
   */
  function Walk(g: Grid, r: int, stop: int, step: int, color: Color, c: int, dir: int,
                skipped: seq<Placed>, last: seq<Placed>): Moves
    requires WalkBounds(r, stop, step, c, dir)
    decreases Remaining(r, stop, step), 1
  {
    if Remaining(r, stop, step) == 0 then []
    else if (dir == -1 && c < 0) || (dir == 1 && c >= 8) then []
    else match g[r][c]
      case Empty => Landing(g, r, stop, step, color, c, skipped, last)
      case Holds(q) =>
        if q.color == color then []
        else Walk(g, r + step, stop, step, color, c + dir, dir, skipped, [Placed(r, c, q)])
  }

  /**
   * The traversal reaching the empty square (r, c): nothing when it has
   * jumped before but not in this search, otherwise the move there and,
   * after a jump, what the searches on both sides from `Beyond` find.
   */
  function Landing(g: Grid, r: int, stop: int, step: int, color: Color, c: int,
                   skipped: seq<Placed>, last: seq<Placed>): Moves
    requires RowBounds(r, stop, step) && Remaining(r, stop, step) > 0 && OnBoard(r, c) && g[r][c] == Empty
    decreases Remaining(r, stop, step), 0
  {
    if skipped != [] && last == [] then []
    else
      var m := [((r, c), if skipped != [] then last + skipped else last)];
      if last != [] then
        var row := Beyond(r, step);
        Update(Update(m, Walk(g, row, stop, step, color, c - 1, -1, last, [])),
               Walk(g, row, stop, step, color, c + 1, 1, last, []))
      else m
  }

  /** One traversal started by get_valid_moves: from the diagonal neighbour, `step` rows and `dir` columns away. */
  function Direction(g: Grid, r: int, c: int, color: Color, step: int, dir: int): Moves
    requires OnBoard(r, c) && (step == -1 || step == 1) && (dir == -1 || dir == 1)
  {
    Walk(g, r + step, Beyond(r, step), step, color, c + dir, dir, [], [])
  }

  /** `d` updated with the left and then the right traversal `step` rows on. */
  function Sides(g: Grid, r: int, c: int, color: Color, step: int, d: Moves): Moves
    requires OnBoard(r, c) && (step == -1 || step == 1)
  {
    Update(Update(d, Direction(g, r, c, color, step, -1)), Direction(g, r, c, color, step, 1))
  }

  /** The moves of the piece `p` on (r, c), as get_valid_moves collects them. */
  function ValidMoves(g: Grid, r: int, c: int, p: Piece): Moves
    requires OnBoard(r, c)
  {
    var up := if p.color == Red || p.king then Sides(g, r, c, p.color, -1, []) else [];
    if p.color == White || p.king then Sides(g, r, c, p.color, 1, up) else up
  }

  /**
   * Reference definition of one direction: the diagonal neighbour when
   * it is empty, or the square beyond an opponent's piece when that one
   * is empty, with the opponent's piece as the one jumped.
   */
  function Reach(g: Grid, r: int, c: int, p: Piece, step: int, dir: int): Moves
  {
    var r1, c1 := r + step, c + dir;
    if !OnBoard(r1, c1) then []
    else match g[r1][c1]
      case Empty => [((r1, c1), [])]
      case Holds(q) =>
        if q.color == p.color then []
        else if OnBoard(r1 + step, c1 + dir) && g[r1 + step][c1 + dir] == Empty then [((r1 + step, c1 + dir), [Placed(r1, c1, q)])]
        else []
  }

  /**
   * The traversal in one direction finds exactly the reference move: the
   * rows it scans are the two in front of the piece, and the search
   * after a jump starts past the end of them, so it finds nothing.
   */
  lemma WalkIsReach(g: Grid, r: int, c: int, p: Piece, step: int, dir: int)
    requires OnBoard(r, c) && (step == -1 || step == 1) && (dir == -1 || dir == 1)
    ensures Direction(g, r, c, p.color, step, dir) == Reach(g, r, c, p, step, dir)
  {
    var stop := Beyond(r, step);
    assert Direction(g, r, c, p.color, step, dir) == Walk(g, r + step, stop, step, p.color, c + dir, dir, [], []);
    var r1, c1 := r + step, c + dir;
    assert Remaining(r1, stop, step) > 0 <==> 0 <= r1 < 8;
    if Remaining(r1, stop, step) > 0 && OnBoard(r1, c1) && g[r1][c1] == Empty {
      assert Landing(g, r1, stop, step, p.color, c1, [], []) == [((r1, c1), [])];
    } else if Remaining(r1, stop, step) > 0 && OnBoard(r1, c1) && g[r1][c1].piece.color != p.color {
      var q := Placed(r1, c1, g[r1][c1].piece);
      var r2, c2 := r1 + step, c1 + dir;
      assert Walk(g, r1, stop, step, p.color, c1, dir, [], []) == Walk(g, r2, stop, step, p.color, c2, dir, [], [q]);
      assert Remaining(r2, stop, step) > 0 <==> 0 <= r2 < 8;
      if Remaining(r2, stop, step) > 0 && OnBoard(r2, c2) {
        if g[r2][c2] == Empty {
          var row := Beyond(r2, step);
          assert Remaining(row, stop, step) == 0;
          assert Walk(g, row, stop, step, p.color, c2 - 1, -1, [q], []) == [];
          assert Walk(g, row, stop, step, p.color, c2 + 1, 1, [q], []) == [];
          assert Landing(g, r2, stop, step, p.color, c2, [], [q]) == [((r2, c2), [q])];
          assert Walk(g, r2, stop, step, p.color, c2, dir, [], [q]) == [((r2, c2), [q])];
        } else if g[r2][c2].piece.color != p.color {
          var q2 := Placed(r2, c2, g[r2][c2].piece);
          assert Remaining(r2 + step, stop, step) == 0;
          assert Walk(g, r2 + step, stop, step, p.color, c2 + dir, dir, [], [q2]) == [];
          assert Walk(g, r2, stop, step, p.color, c2, dir, [], [q]) == [];
        }
      }
    }
  }

  predicate OnSide(r: int, c: int, k: Square, step: int, dir: int) {
    (if step == -1 then k.0 < r else k.0 > r) && (if dir == -1 then k.1 < c else k.1 > c)
  }

  /** Reference moves `step` rows on: the left diagonal's, then the right one's. */
  function Ahead(g: Grid, r: int, c: int, p: Piece, step: int): Moves
  {
    Reach(g, r, c, p, step, -1) + Reach(g, r, c, p, step, 1)
  }

  /** The move found in one direction lies on that side of the piece, and there is at most one. */
  lemma ReachSide(g: Grid, r: int, c: int, p: Piece, step: int, dir: int)
    requires step == -1 || step == 1
    requires dir == -1 || dir == 1
    ensures |Reach(g, r, c, p, step, dir)| <= 1
    ensures forall x :: x in Reach(g, r, c, p, step, dir) ==> OnSide(r, c, x.0, step, dir)
  {
  }

  lemma UpdateOne(d: Moves, e: Moves)
    requires |e| <= 1 && forall x :: x in e ==> NotKey(d, x.0)
    ensures Update(d, e) == d + e
  {
    if e != [] {
      PutNew(d, e[0].0, e[0].1);
      assert e[1..] == [];
    }
  }

  /**
   * The two traversals of one vertical direction, put into a dictionary
   * whose keys all lie on the other side of the piece, add the reference
   * moves of that direction, left before right.
   */
  lemma PairIsReach(g: Grid, r: int, c: int, p: Piece, step: int, d: Moves)
    requires OnBoard(r, c) && (step == -1 || step == 1)
    requires forall x :: x in d ==> OnSide(r, c, x.0, -step, -1) || OnSide(r, c, x.0, -step, 1)
    ensures Sides(g, r, c, p.color, step, d) == d + Ahead(g, r, c, p, step)
  {
    var left, right := Reach(g, r, c, p, step, -1), Reach(g, r, c, p, step, 1);
    WalkIsReach(g, r, c, p, step, -1);
    WalkIsReach(g, r, c, p, step, 1);
    ReachSide(g, r, c, p, step, -1);
    ReachSide(g, r, c, p, step, 1);
    UpdateOne(d, left);
    UpdateOne(d + left, right);
    assert d + left + right == d + (left + right);
  }

  /**
   * get_valid_moves finds exactly the reference moves: the two upward
   * directions for a red piece or a king, then the two downward ones for
   * a white piece or a king, left before right, at most one move each.
   */
  lemma ValidMovesIsReach(g: Grid, r: int, c: int, p: Piece)
    requires OnBoard(r, c)
    ensures ValidMoves(g, r, c, p) ==
      (if p.color == Red || p.king then Ahead(g, r, c, p, -1) else []) +
      (if p.color == White || p.king then Ahead(g, r, c, p, 1) else [])
  {
    var up := if p.color == Red || p.king then Ahead(g, r, c, p, -1) else [];
    if p.color == Red || p.king {
      PairIsReach(g, r, c, p, -1, []);
      assert [] + up == up;
    }
    if p.color == White || p.king {
      ReachSide(g, r, c, p, -1, -1);
      ReachSide(g, r, c, p, -1, 1);
      PairIsReach(g, r, c, p, 1, up);
    } else {
      assert up + [] == up;
    }
  }

  /**
   * A move is a single diagonal step or a single jump over one opponent
   * piece, upward only for red or kings and downward only for white or
   * kings: chains of jumps are never offered.
   */
  predicate StepOrJump(g: Grid, r: int, c: int, p: Piece, k: Square, skip: seq<Placed>) {
    var dr, dc := k.0 - r, k.1 - c;
    (dr < 0 ==> p.color == Red || p.king) && (dr > 0 ==> p.color == White || p.king) &&
    (((dr == -1 || dr == 1) && (dc == -1 || dc == 1) && skip == []) ||
     ((dr == -2 || dr == 2) && (dc == -2 || dc == 2) && |skip| == 1 &&
      skip[0].row == r + dr / 2 && skip[0].col == c + dc / 2 &&
      Located(g, skip[0]) && skip[0].piece.color != p.color))
  }

  /** The move `x` of the piece `p` on (r, c) lands on an empty square by one step or one jump. */
  predicate Legal(g: Grid, r: int, c: int, p: Piece, x: (Square, seq<Placed>)) {
    OnBoard(x.0.0, x.0.1) && g[x.0.0][x.0.1] == Empty && StepOrJump(g, r, c, p, x.0, x.1)
  }

  predicate AllLegal(g: Grid, r: int, c: int, p: Piece, m: Moves) {
    forall x :: x in m ==> Legal(g, r, c, p, x)
  }

  lemma AheadShape(g: Grid, r: int, c: int, p: Piece, step: int)
    requires (step == -1 && (p.color == Red || p.king)) || (step == 1 && (p.color == White || p.king))
    ensures AllLegal(g, r, c, p, Ahead(g, r, c, p, step))
  {
  }

  lemma AllLegalLands(g: Grid, r: int, c: int, p: Piece, m: Moves)
    requires AllLegal(g, r, c, p, m)
    ensures Landings(g, m)
  {
    forall x | x in m
      ensures forall q :: q in x.1 ==> Located(g, q)
    {
      assert Legal(g, r, c, p, x);
    }
  }

  lemma ValidMovesShape(g: Grid, r: int, c: int, p: Piece)
    requires OnBoard(r, c)
    ensures AllLegal(g, r, c, p, ValidMoves(g, r, c, p))
    ensures Landings(g, ValidMoves(g, r, c, p))
  {
    ValidMovesIsReach(g, r, c, p);
    var up := if p.color == Red || p.king then Ahead(g, r, c, p, -1) else [];
    var down := if p.color == White || p.king then Ahead(g, r, c, p, 1) else [];
    if p.color == Red || p.king {
      AheadShape(g, r, c, p, -1);
    }
    if p.color == White || p.king {
      AheadShape(g, r, c, p, 1);
    }
    assert AllLegal(g, r, c, p, up + down);
    AllLegalLands(g, r, c, p, up + down);
  }

  /** Every empty diagonal neighbour in an allowed direction is offered, with nothing jumped. */
  lemma StepsOffered(g: Grid, r: int, c: int, p: Piece, step: int, dir: int)
    requires OnBoard(r, c) && OnBoard(r + step, c + dir) && g[r + step][c + dir] == Empty
    requires (step == -1 && (p.color == Red || p.king)) || (step == 1 && (p.color == White || p.king))
    requires dir == -1 || dir == 1
    ensures ((r + step, c + dir), []) in ValidMoves(g, r, c, p)
  {
    ValidMovesIsReach(g, r, c, p);
  }

  // ---------------------------------------------------------------------
  // The positions one side can reach

  /** The `color` pieces of row `r` among its first `n` squares, left to right. */
  function RowPieces(g: Grid, r: int, n: nat, color: Color): (ps: seq<Placed>)
    requires 0 <= r < 8 && n <= 8
    ensures forall q :: q in ps ==> q.row == r && q.col < n && Located(g, q) && q.piece.color == color
    ensures forall c :: 0 <= c < n && Is(g[r][c], color) == 1 ==> Placed(r, c, g[r][c].piece) in ps
  {
    if n == 0 then []
    else
      var here := if Is(g[r][n - 1], color) == 1 then [Placed(r, n - 1, g[r][n - 1].piece)] else [];
      RowPieces(g, r, n - 1, color) + here
  }

  /** The `color` pieces of the first `n` rows, row by row. */
  function PiecesUpTo(g: Grid, n: nat, color: Color): (ps: seq<Placed>)
    requires n <= 8
    ensures forall q :: q in ps ==> q.row < n && Located(g, q) && q.piece.color == color
    ensures forall r, c :: 0 <= r < n && 0 <= c < 8 && Is(g[r][c], color) == 1 ==> Placed(r, c, g[r][c].piece) in ps
  {
    if n == 0 then [] else PiecesUpTo(g, n - 1, color) + RowPieces(g, n - 1, 8, color)
  }

  /** get_all_pieces: every `color` piece on the board, in reading order. */
  function PiecesOf(g: Grid, color: Color): seq<Placed> { PiecesUpTo(g, 8, color) }

  /** simulate_move on a copy: the move, then the removal of the pieces it jumps, if any. */
  function Simulate(s: Position, q: Placed, k: Square, skip: seq<Placed>): Position
    requires Located(s.grid, q) && OnBoard(k.0, k.1) && AllOnBoard(skip)
  {
    var t := MoveTo(s, (q.row, q.col), k);
    if skip != [] then RemoveAll(t, skip) else t
  }

  /** The boards after each of `q`'s moves, in the order of the moves. */
  function ApplyAll(s: Position, q: Placed, ms: Moves): seq<Position>
    requires Located(s.grid, q) && Landings(s.grid, ms)
  {
    if ms == [] then []
    else
      var x := ms[|ms| - 1];
      assert x in ms;
      ApplyAll(s, q, ms[..|ms| - 1]) + [Simulate(s, q, x.0, x.1)]
  }

  /** The boards after each move of each piece of `ps`, piece by piece. */
  function ChildrenFrom(s: Position, ps: seq<Placed>): seq<Position>
    requires forall q :: q in ps ==> Located(s.grid, q)
  {
    if ps == [] then []
    else
      var q := ps[|ps| - 1];
      assert q in ps && Located(s.grid, q);
      ValidMovesShape(s.grid, q.row, q.col, q.piece);
      ChildrenFrom(s, ps[..|ps| - 1]) + ApplyAll(s, q, ValidMoves(s.grid, q.row, q.col, q.piece))
  }

  /** get_all_moves: the boards `color` can reach in one move. */
  function Children(s: Position, color: Color): seq<Position>
  {
    ChildrenFrom(s, PiecesOf(s.grid, color))
  }

  /** A move keeps the counters equal to the pieces on the board. */
  lemma SimulateKeepsCounted(s: Position, q: Placed, x: (Square, seq<Placed>))
    requires Counted(s) && Located(s.grid, q)
    requires x in ValidMoves(s.grid, q.row, q.col, q.piece)
    ensures OnBoard(x.0.0, x.0.1) && AllOnBoard(x.1) && Counted(Simulate(s, q, x.0, x.1))
  {
    ValidMovesShape(s.grid, q.row, q.col, q.piece);
    assert Legal(s.grid, q.row, q.col, q.piece, x);
    var t := MoveTo(s, (q.row, q.col), x.0);
    MoveKeepsCounts(s, (q.row, q.col), x.0, Red);
    MoveKeepsCounts(s, (q.row, q.col), x.0, White);
    if x.1 != [] {
      var m := x.1[0];
      assert (m.row, m.col) != (q.row, q.col) && (m.row, m.col) != x.0;
      assert t.grid[m.row][m.col] == s.grid[m.row][m.col];
      RemoveKeepsCounted(t, x.1);
    }
  }

  lemma {:induction false} ApplyAllCounted(s: Position, q: Placed, ms: Moves)
    requires Counted(s) && Located(s.grid, q) && Landings(s.grid, ms)
    requires forall x :: x in ms ==> x in ValidMoves(s.grid, q.row, q.col, q.piece)
    ensures forall t :: t in ApplyAll(s, q, ms) ==> Counted(t)
  {
    if ms != [] {
      var x := ms[|ms| - 1];
      ApplyAllCounted(s, q, ms[..|ms| - 1]);
      SimulateKeepsCounted(s, q, x);
    }
  }

  lemma {:induction false} ChildrenFromCounted(s: Position, ps: seq<Placed>)
    requires Counted(s) && forall q :: q in ps ==> Located(s.grid, q)
    ensures forall t :: t in ChildrenFrom(s, ps) ==> Counted(t)
  {
    if ps != [] {
      var q := ps[|ps| - 1];
      assert q in ps;
      ChildrenFromCounted(s, ps[..|ps| - 1]);
      ValidMovesShape(s.grid, q.row, q.col, q.piece);
      ApplyAllCounted(s, q, ValidMoves(s.grid, q.row, q.col, q.piece));
    }
  }

  /** Every board the AI considers keeps its counters equal to the pieces on it. */
  lemma ChildrenCounted(s: Position, color: Color)
    requires Counted(s)
    ensures forall t :: t in Children(s, color) ==> Counted(t)
  {
    ChildrenFromCounted(s, PiecesOf(s.grid, color));
  }

  // ---------------------------------------------------------------------
  // The AI

  function Side(maxPlayer: bool): Color { if maxPlayer then White else Red }

  /**
   * Checkers as a search: white maximizes, red minimizes, a position with
   * a winner is terminal, leaves score the doubled heuristic, and a side
   * without a move keeps the loop's initial -inf or +inf.
   */
  function G(): Search.Game<Position, Position>
  {
    Search.Game((s: Position, maxing: bool) => Children(s, Side(maxing)),
                (s: Position, m: Position, maxing: bool) => m,
                (s: Position) => Winner(s).Some?,
                Evaluate, Search.Sentinel, Search.NegInf, Search.PosInf)
  }

  /** The side to move with no move at all is scored as lost. */
  lemma StuckLoses(s: Position, depth: nat, maxing: bool)
    requires depth > 0 && Winner(s).None? && Children(s, Side(maxing)) == []
    ensures Search.Minimax(G(), s, depth, maxing) == if maxing then Search.NegInf else Search.PosInf
  {
  }

  /**
   * minimax(board, depth, max_player): the exact minimax value, and the
   * board itself at depth 0 or with a winner, otherwise the last child
   * of best value, or None when the side to move has no move.
   */
  method Minimax(s: Position, depth: nat, maxPlayer: bool) returns (v: Search.Value, best: Option<Position>)
    ensures v == Search.Minimax(G(), s, depth, maxPlayer)
    ensures depth == 0 || Winner(s).Some? ==> best == Some(s)
    ensures depth > 0 && Winner(s).None? ==>
      var ms := Children(s, Side(maxPlayer));
      (best.None? <==> ms == []) &&
      (best.Some? ==> best.value == ms[Search.Choose(Search.ChildValues(G(), s, depth, maxPlayer), maxPlayer, Search.LastEqual)])
  {
    var k;
    v, k := Search.PlainMinimax(G(), s, depth, maxPlayer);
    if depth == 0 || Winner(s).Some? {
      best := Some(s);
    } else if k.Some? {
      best := Some(Children(s, Side(maxPlayer))[k.value]);
    } else {
      best := None;
    }
  }

  // ---------------------------------------------------------------------
  // The board object

  class Board {
    var grid: Grid
    var redLeft: int
    var whiteLeft: int
    var redKings: int
    var whiteKings: int

    function State(): Position
      reads this
    {
      Position(grid, redLeft, whiteLeft, redKings, whiteKings)
    }

    /** Twelve pieces a side, no kings, laid out by create_board. */
    constructor ()
      ensures State() == InitialPosition()
    {
      grid := seq(8, _ => seq(8, _ => Empty));
      redLeft, whiteLeft := 12, 12;
      redKings, whiteKings := 0, 0;
      new;
      CreateBoard();
    }

    /** copy.deepcopy: a new board in the same state. */
    constructor Copy(b: Board)
      ensures State() == b.State()
    {
      grid := b.grid;
      redLeft, whiteLeft := b.redLeft, b.whiteLeft;
      redKings, whiteKings := b.redKings, b.whiteKings;
    }

    method CreateBoard()
      modifies this
      ensures grid == InitialGrid()
      ensures redLeft == old(redLeft) && whiteLeft == old(whiteLeft)
      ensures redKings == old(redKings) && whiteKings == old(whiteKings)
    {
      var rows: seq<seq<Cell>> := [];
      for row := 0 to 8
        invariant rows == InitialGrid()[..row]
      {
        var line: seq<Cell> := [];
        for col := 0 to 8
          invariant line == InitialGrid()[row][..col]
        {
          var x := Empty;
          if col % 2 == (row + 1) % 2 {
            if row < 3 {
              x := Holds(Piece(White, false));
            } else if row > 4 {
              x := Holds(Piece(Red, false));
            }
          }
          line := line + [x];
        }
        assert InitialGrid()[row][..8] == InitialGrid()[row];
        assert InitialGrid()[..row + 1] == InitialGrid()[..row] + [InitialGrid()[row]];
        rows := rows + [line];
      }
      assert InitialGrid()[..8] == InitialGrid();
      grid := rows;
    }

    /** Moves the piece `q` to (row, col), crowning it on the first or last row. */
    method Move(q: Placed, row: int, col: int)
      requires Located(grid, q) && OnBoard(row, col)
      modifies this
      ensures State() == MoveTo(old(State()), (q.row, q.col), (row, col))
    {
      var there, here := grid[row][col], grid[q.row][q.col];
      grid := Set(Set(grid, q.row, q.col, there), row, col, here);
      if row == 7 || row == 0 {
        grid := Set(grid, row, col, Holds(here.piece.(king := true)));
        if here.piece.color == White {
          whiteKings := whiteKings + 1;
        } else {
          redKings := redKings + 1;
        }
      }
    }

    /** Empties the square of each piece and takes it off its colour's counter. */
    method Remove(pieces: seq<Placed>)
      requires AllOnBoard(pieces)
      modifies this
      ensures State() == RemoveAll(old(State()), pieces)
    {
      for i := 0 to |pieces|
        invariant State() == RemoveAll(old(State()), pieces[..i])
      {
        var q := pieces[i];
        assert pieces[..i + 1][..i] == pieces[..i];
        grid := Set(grid, q.row, q.col, Empty);
        if q.piece.color == Red {
          redLeft := redLeft - 1;
        } else {
          whiteLeft := whiteLeft - 1;
        }
      }
      assert pieces[..|pieces|] == pieces;
    }

    method GetAllPieces(color: Color) returns (pieces: seq<Placed>)
      ensures pieces == PiecesOf(grid, color)
    {
      pieces := [];
      for r := 0 to 8
        invariant pieces == PiecesUpTo(grid, r, color)
      {
        for c := 0 to 8
          invariant pieces == PiecesUpTo(grid, r, color) + RowPieces(grid, r, c, color)
        {
          var x := grid[r][c];
          if x.Holds? && x.piece.color == color {
            pieces := pieces + [Placed(r, c, x.piece)];
          }
        }
      }
    }

    method GetValidMoves(q: Placed) returns (moves: Moves)
      requires OnBoard(q.row, q.col)
      ensures moves == ValidMoves(grid, q.row, q.col, q.piece)
    {
      moves := [];
      var left, right, row := q.col - 1, q.col + 1, q.row;
      if q.piece.color == Red || q.piece.king {
        var m := Traverse(row - 1, Max(row - 3, -1), -1, q.piece.color, left, -1, []);
        moves := Update(moves, m);
        m := Traverse(row - 1, Max(row - 3, -1), -1, q.piece.color, right, 1, []);
        moves := Update(moves, m);
      }
      if q.piece.color == White || q.piece.king {
        var m := Traverse(row + 1, Min(row + 3, 8), 1, q.piece.color, left, -1, []);
        moves := Update(moves, m);
        m := Traverse(row + 1, Min(row + 3, 8), 1, q.piece.color, right, 1, []);
        moves := Update(moves, m);
      }
    }

    /**
     * _traverse_left (dir -1) and _traverse_right (dir +1): the rows of
     * range(start, stop, step), one column further each row.
     */
    method Traverse(start: int, stop: int, step: int, color: Color, c: int, dir: int, skipped: seq<Placed>)
      returns (moves: Moves)
      requires WalkBounds(start, stop, step, c, dir)
      ensures moves == Walk(grid, start, stop, step, color, c, dir, skipped, [])
      decreases Remaining(start, stop, step), 1
    {
      moves := [];
      var last: seq<Placed> := [];
      var r, col := start, c;
      while if step == 1 then r < stop else r > stop
        invariant WalkBounds(r, stop, step, col, dir)
        invariant Remaining(r, stop, step) <= Remaining(start, stop, step)
        invariant Walk(grid, start, stop, step, color, c, dir, skipped, []) ==
                  Walk(grid, r, stop, step, color, col, dir, skipped, last)
        decreases Remaining(r, stop, step)
      {
        if (dir == -1 && col < 0) || (dir == 1 && col >= 8) {
          break;
        }
        var current := grid[r][col];
        if current == Empty {
          moves := Land(r, stop, step, color, col, skipped, last);
          break;
        } else if current.piece.color == color {
          break;
        }
        last := [Placed(r, col, current.piece)];
        col := col + dir;
        r := r + step;
      }
    }

    /** The body of the traversal loop on reaching the empty square (r, c). */
    method Land(r: int, stop: int, step: int, color: Color, c: int, skipped: seq<Placed>, last: seq<Placed>)
      returns (moves: Moves)
      requires RowBounds(r, stop, step) && Remaining(r, stop, step) > 0 && OnBoard(r, c) && grid[r][c] == Empty
      ensures moves == Landing(grid, r, stop, step, color, c, skipped, last)
      decreases Remaining(r, stop, step), 0
    {
      moves := [];
      if skipped != [] && last == [] {
        return;
      }
      moves := [((r, c), if skipped != [] then last + skipped else last)];
      if last != [] {
        var row := Beyond(r, step);
        var m := Traverse(row, stop, step, color, c - 1, -1, last);
        moves := Update(moves, m);
        m := Traverse(row, stop, step, color, c + 1, 1, last);
        moves := Update(moves, m);
      }
    }
  }

  /** simulate_move on a deep copy of `board`: the board the move leads to. */
  method SimulateOnCopy(board: Board, piece: Placed, k: Square, skip: seq<Placed>) returns (t: Position)
    requires Located(board.grid, piece) && OnBoard(k.0, k.1) && AllOnBoard(skip)
    ensures t == Simulate(board.State(), piece, k, skip)
  {
    var temp := new Board.Copy(board);
    temp.Move(piece, k.0, k.1);
    if skip != [] {
      temp.Remove(skip);
    }
    t := temp.State();
  }

  /** The boards after each of `piece`'s moves, each played on its own copy. */
  method PlayAll(board: Board, piece: Placed, valid: Moves) returns (moves: seq<Position>)
    requires Located(board.grid, piece) && Landings(board.grid, valid)
    ensures moves == ApplyAll(board.State(), piece, valid)
  {
    moves := [];
    for j := 0 to |valid|
      invariant moves == ApplyAll(board.State(), piece, valid[..j])
    {
      assert valid[..j + 1][..j] == valid[..j] && valid[j] in valid;
      var t := SimulateOnCopy(board, piece, valid[j].0, valid[j].1);
      moves := moves + [t];
    }
    assert valid[..|valid|] == valid;
  }

  /** get_all_moves on a board object. */
  method GetAllMoves(board: Board, color: Color) returns (moves: seq<Position>)
    ensures moves == Children(board.State(), color)
  {
    moves := [];
    var pieces := board.GetAllPieces(color);
    for i := 0 to |pieces|
      invariant moves == ChildrenFrom(board.State(), pieces[..i])
    {
      var piece := pieces[i];
      assert pieces[..i + 1][..i] == pieces[..i] && piece in pieces;
      var valid := board.GetValidMoves(piece);
      ValidMovesShape(board.grid, piece.row, piece.col, piece.piece);
      var children := PlayAll(board, piece, valid);
      moves := moves + children;
    }
    assert pieces[..|pieces|] == pieces;
  }
}

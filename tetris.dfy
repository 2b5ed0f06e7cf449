/**
 * Tetris on a 10x20 well.  A grid cell holds 0 when empty and otherwise
 * the colour (1..7) of the piece that locked there.  The falling piece is
 * a small 0/1 matrix at a position (x, y); it may stick out above the
 * well but never past its walls or floor.  Full rows are cleared when a
 * piece locks.  The random choice of the next piece is an input.
 */
module Tetris {
  const Cols := 10
  const Rows := 20

  /** The index of one of the seven tetrominoes, which is also its colour. */
  type PieceIndex = i: int | 1 <= i <= 7 witness 1

  /** The seven shapes, each in its spawn orientation. */
  function ShapeOf(idx: PieceIndex): seq<seq<int>>
  {
    match idx
    case 1 => [[1, 1, 1, 1]]
    case 2 => [[1, 0, 0], [1, 1, 1]]
    case 3 => [[0, 0, 1], [1, 1, 1]]
    case 4 => [[1, 1], [1, 1]]
    case 5 => [[0, 1, 1], [1, 1, 0]]
    case 6 => [[0, 1, 0], [1, 1, 1]]
    case 7 => [[1, 1, 0], [0, 1, 1]]
  }

  /** The points for clearing n lines at once, before the level factor; other counts score nothing. */
  function ScoreFor(n: int): (points: int)
    ensures points >= 0 && (n < 1 || n > 4 <==> points == 0)
  {
    if n == 1 then 100 else if n == 2 then 300 else if n == 3 then 500 else if n == 4 then 800 else 0
  }

  /** The milliseconds between gravity steps, by level. */
  const DropSpeeds: seq<int> := [800, 720, 630, 550, 470, 380, 300, 220, 130, 100, 80]

  // ---------------------------------------------------------------------
  // Shapes and rotation

  /** A shape with at least one row, whose rows all have the same positive length. */
  predicate Rect(s: seq<seq<int>>)
  {
    |s| > 0 && |s[0]| > 0 && forall i :: 0 <= i < |s| ==> |s[i]| == |s[0]|
  }

  /** Some cell of the shape is filled. */
  predicate HasBlock(s: seq<seq<int>>)
  {
    exists r, c :: 0 <= r < |s| && 0 <= c < |s[r]| && s[r][c] != 0
  }

  /** Every spawn shape is a rectangle of at most two rows and four columns with a filled cell. */
  lemma ShapeFacts(idx: PieceIndex)
    ensures Rect(ShapeOf(idx)) && HasBlock(ShapeOf(idx))
    ensures |ShapeOf(idx)| <= 2 && |ShapeOf(idx)[0]| <= 4
  {
    var s := ShapeOf(idx);
    assert s[1 % |s|][1 % |s[0]|] != 0 || s[0][0] != 0;
    if s[0][0] != 0 {
      assert 0 <= 0 < |s| && 0 <= 0 < |s[0]|;
    } else {
      assert 0 <= 1 % |s| < |s| && 0 <= 1 % |s[0]| < |s[1 % |s|]|;
    }
  }

  /** The length of the shortest row: how many columns zip(*rows) produces. */
  function MinWidth(s: seq<seq<int>>): (w: nat)
    ensures forall i :: 0 <= i < |s| ==> w <= |s[i]|
    ensures |s| > 0 ==> exists i :: 0 <= i < |s| && w == |s[i]|
  {
    if |s| == 0 then 0
    else if |s| == 1 then |s[0]|
    else
      var w := MinWidth(s[1..]);
      assert forall i :: 1 <= i < |s| ==> s[1..][i - 1] == s[i];
      if |s[0]| <= w then |s[0]| else w
  }

  /** Piece.rotate: reverse the rows, then transpose (row k of the result lists column k bottom-up). */
  function Rotated(s: seq<seq<int>>): (t: seq<seq<int>>)
  {
    var h := |s|;
    seq(MinWidth(s), k requires 0 <= k < MinWidth(s) => seq(h, i requires 0 <= i < h => s[h - 1 - i][k]))
  }

  /** A quarter turn of a rectangle is a rectangle with height and width swapped. */
  lemma RotatedRect(s: seq<seq<int>>)
    requires Rect(s)
    ensures Rect(Rotated(s)) && |Rotated(s)| == |s[0]| && |Rotated(s)[0]| == |s|
    ensures forall k, i :: 0 <= k < |s[0]| && 0 <= i < |s| ==> Rotated(s)[k][i] == s[|s| - 1 - i][k]
  {
    assert MinWidth(s) == |s[0]|;
  }

  /** A half turn: both the rows and the columns reversed. */
  function HalfTurn(s: seq<seq<int>>): (t: seq<seq<int>>)
    requires Rect(s)
  {
    seq(|s|, a requires 0 <= a < |s| => seq(|s[0]|, b requires 0 <= b < |s[0]| => s[|s| - 1 - a][|s[0]| - 1 - b]))
  }

  lemma RotateTwice(s: seq<seq<int>>)
    requires Rect(s)
    ensures Rect(Rotated(Rotated(s))) && Rotated(Rotated(s)) == HalfTurn(s)
  {
    RotatedRect(s);
    var t := Rotated(s);
    RotatedRect(t);
    var u, v := Rotated(t), HalfTurn(s);
    assert |u| == |v|;
    forall a | 0 <= a < |s| ensures u[a] == v[a] {
      forall b | 0 <= b < |s[0]| ensures u[a][b] == v[a][b] {
        assert u[a][b] == t[|s[0]| - 1 - b][a];
      }
    }
  }

  /** Four quarter turns give back the shape. */
  lemma RotateFour(s: seq<seq<int>>)
    requires Rect(s)
    ensures Rotated(Rotated(Rotated(Rotated(s)))) == s
  {
    RotateTwice(s);
    RotateTwice(HalfTurn(s));
    HalfTurnTwice(s);
  }

  /** Two half turns give back the shape. */
  lemma HalfTurnTwice(s: seq<seq<int>>)
    requires Rect(s)
    ensures Rect(HalfTurn(s)) && HalfTurn(HalfTurn(s)) == s
  {
    var h := HalfTurn(s);
    forall a | 0 <= a < |s| ensures HalfTurn(h)[a] == s[a] { }
  }

  /** A quarter turn keeps a filled cell. */
  lemma RotatedBlock(s: seq<seq<int>>)
    requires Rect(s) && HasBlock(s)
    ensures HasBlock(Rotated(s))
  {
    RotatedRect(s);
    var r, c :| 0 <= r < |s| && 0 <= c < |s[r]| && s[r][c] != 0;
    var t := Rotated(s);
    assert t[c][|s| - 1 - r] != 0;
  }

  // ---------------------------------------------------------------------
  // The well

  /** A 20x10 grid of rows. */
  predicate Board(g: seq<seq<int>>)
  {
    |g| == Rows && forall i :: 0 <= i < |g| ==> |g[i]| == Cols
  }

  function EmptyRow(): seq<int> { seq(Cols, _ => 0) }

  function EmptyBoard(): (g: seq<seq<int>>)
    ensures Board(g)
  {
    seq(Rows, _ => EmptyRow())
  }

  function SetCell(g: seq<seq<int>>, r: int, c: int, v: int): (h: seq<seq<int>>)
    requires Board(g) && 0 <= r < Rows && 0 <= c < Cols
    ensures Board(h) && h[r][c] == v
    ensures forall i, j :: 0 <= i < Rows && 0 <= j < Cols && !(i == r && j == c) ==> h[i][j] == g[i][j]
  {
    g[r := g[r][c := v]]
  }

  lemma WellEq(g: seq<seq<int>>, h: seq<seq<int>>)
    requires Board(g) && Board(h)
    requires forall i, j :: 0 <= i < Rows && 0 <= j < Cols ==> g[i][j] == h[i][j]
    ensures g == h
  {
    forall i | 0 <= i < Rows ensures g[i] == h[i] {
      assert forall j :: 0 <= j < Cols ==> g[i][j] == h[i][j];
    }
  }

  /** Cell (r, c) of shape s placed at (x, y) is empty, or lands inside the walls, above the floor and off every block. */
  predicate CellOk(g: seq<seq<int>>, s: seq<seq<int>>, x: int, y: int, r: int, c: int)
    requires Board(g) && 0 <= r < |s| && 0 <= c < |s[r]|
  {
    s[r][c] != 0 ==>
      0 <= x + c < Cols && y + r < Rows && (y + r >= 0 ==> g[y + r][x + c] == 0)
  }

  /** valid_move: every filled cell of the shape at (x, y) is inside the walls, above the floor and off the blocks; cells above the well are allowed. */
  predicate Fits(g: seq<seq<int>>, s: seq<seq<int>>, x: int, y: int)
    requires Board(g)
  {
    forall r, c :: 0 <= r < |s| && 0 <= c < |s[r]| ==> CellOk(g, s, x, y, r, c)
  }

  /** Starting at row y0, the piece fits at every row down to y and not one row lower: where it comes to rest. */
  predicate Landed(g: seq<seq<int>>, s: seq<seq<int>>, x: int, y0: int, y: int)
    requires Board(g)
  {
    y0 <= y && (forall k :: y0 <= k <= y ==> Fits(g, s, x, k)) && !Fits(g, s, x, y + 1)
  }

  /** A piece comes to rest at one row only. */
  lemma LandedUnique(g: seq<seq<int>>, s: seq<seq<int>>, x: int, y0: int, y1: int, y2: int)
    requires Board(g) && Landed(g, s, x, y0, y1) && Landed(g, s, x, y0, y2)
    ensures y1 == y2
  {
  }

  /** Well cell (i, j) is under a filled cell of shape s placed at (x, y). */
  predicate Covers(s: seq<seq<int>>, x: int, y: int, i: int, j: int)
  {
    0 <= i - y < |s| && 0 <= j - x < |s[i - y]| && s[i - y][j - x] != 0
  }

  /** The grid after lock_piece writes the colour into every covered cell inside the well. */
  function Locked(g: seq<seq<int>>, s: seq<seq<int>>, x: int, y: int, color: int): (h: seq<seq<int>>)
    requires Board(g)
    ensures Board(h)
  {
    seq(Rows, i requires 0 <= i < Rows =>
      seq(Cols, j requires 0 <= j < Cols => if Covers(s, x, y, i, j) then color else g[i][j]))
  }

  /** A locked piece takes up its cells: once one of its cells is inside the well, it no longer fits where it locked. */
  lemma LockedOccupied(g: seq<seq<int>>, s: seq<seq<int>>, x: int, y: int, color: int, r: int, c: int)
    requires Board(g) && Fits(g, s, x, y) && color != 0
    requires 0 <= r < |s| && 0 <= c < |s[r]| && s[r][c] != 0 && y + r >= 0
    ensures !Fits(Locked(g, s, x, y, color), s, x, y)
  {
    assert CellOk(g, s, x, y, r, c);
    assert Covers(s, x, y, y + r, x + c);
    assert !CellOk(Locked(g, s, x, y, color), s, x, y, r, c);
  }

  /** A spawned piece fits in an empty well. */
  lemma SpawnFits(idx: PieceIndex)
    ensures Fits(EmptyBoard(), ShapeOf(idx), Cols / 2 - |ShapeOf(idx)[0]| / 2, 0)
  {
    ShapeFacts(idx);
    var s, x := ShapeOf(idx), Cols / 2 - |ShapeOf(idx)[0]| / 2;
    forall r, c | 0 <= r < |s| && 0 <= c < |s[r]| ensures CellOk(EmptyBoard(), s, x, 0, r, c) {
      assert |s[r]| == |s[0]|;
    }
  }

  // ---------------------------------------------------------------------
  // Clearing lines

  /** A row without a 0 is full. */
  predicate Full(row: seq<int>) { 0 !in row }

  /** The rows that are not full, in order. */
  function Kept(g: seq<seq<int>>): seq<seq<int>>
  {
    if g == [] then [] else Kept(g[..|g| - 1]) + (if Full(g[|g| - 1]) then [] else [g[|g| - 1]])
  }

  /** The number of full rows. */
  function FullCount(g: seq<seq<int>>): nat
  {
    if g == [] then 0 else FullCount(g[..|g| - 1]) + (if Full(g[|g| - 1]) then 1 else 0)
  }

  /** n empty rows. */
  function Empties(n: nat): seq<seq<int>>
  {
    if n == 0 then [] else Empties(n - 1) + [EmptyRow()]
  }

  /** What clearing lines leaves: the full rows removed, the rest moved down, and empty rows on top. */
  function Cleared(g: seq<seq<int>>): seq<seq<int>>
  {
    Empties(FullCount(g)) + Kept(g)
  }

  lemma {:induction false} KeptAppend(a: seq<seq<int>>, b: seq<seq<int>>)
    ensures Kept(a + b) == Kept(a) + Kept(b) && FullCount(a + b) == FullCount(a) + FullCount(b)
    decreases |b|
  {
    if b == [] {
      assert a + b == a;
    } else {
      var b' := b[..|b| - 1];
      assert (a + b)[..|a + b| - 1] == a + b';
      assert (a + b)[|a + b| - 1] == b[|b| - 1];
      KeptAppend(a, b');
    }
  }

  /** Every row is either kept or counted as full, and a kept row has a 0 and comes from the grid. */
  lemma {:induction false} KeptRows(g: seq<seq<int>>)
    ensures |Kept(g)| + FullCount(g) == |g|
    ensures forall k :: 0 <= k < |Kept(g)| ==> !Full(Kept(g)[k]) && Kept(g)[k] in g
  {
    if g != [] {
      var g' := g[..|g| - 1];
      KeptRows(g');
      forall k | 0 <= k < |Kept(g')| ensures Kept(g')[k] in g {
        assert Kept(g')[k] in g';
      }
    }
  }

  /** A grid with no full row is left as it is. */
  lemma {:induction false} NoFullRow(g: seq<seq<int>>)
    requires forall k :: 0 <= k < |g| ==> !Full(g[k])
    ensures Kept(g) == g && FullCount(g) == 0 && Cleared(g) == g
  {
    if g != [] {
      NoFullRow(g[..|g| - 1]);
      assert g[..|g| - 1] + [g[|g| - 1]] == g;
    }
  }

  /** Empties(n) is n rows of Cols zeros. */
  lemma {:induction false} EmptiesAre(n: nat)
    ensures |Empties(n)| == n
    ensures forall k :: 0 <= k < n ==> Empties(n)[k] == EmptyRow()
  {
    if n > 0 {
      EmptiesAre(n - 1);
    }
  }

  /** Clearing lines keeps the grid's shape and leaves no full row behind. */
  lemma ClearedBoard(g: seq<seq<int>>)
    requires Board(g)
    ensures Board(Cleared(g))
    ensures forall k :: 0 <= k < Rows ==> !Full(Cleared(g)[k])
  {
    KeptRows(g);
    EmptiesAre(FullCount(g));
    EmptyNotFull();
    var c := Cleared(g);
    forall k | 0 <= k < |c| ensures |c[k]| == Cols && !Full(c[k]) {
      if k >= FullCount(g) {
        var row := Kept(g)[k - FullCount(g)];
        assert row in g;
      }
    }
  }

  /** Clearing twice is clearing once. */
  lemma ClearTwice(g: seq<seq<int>>)
    requires Board(g)
    ensures Cleared(Cleared(g)) == Cleared(g)
  {
    ClearedBoard(g);
    NoFullRow(Cleared(g));
  }

  /** The grid after the shift of clear_lines at row r: rows above r move down one and an empty row enters on top. */
  function Shifted(g: seq<seq<int>>, r: int): seq<seq<int>>
    requires 0 <= r < |g|
  {
    [EmptyRow()] + g[..r] + g[r + 1..]
  }

  /** A full row on its own is dropped and counted. */
  lemma KeptDrop(row: seq<int>)
    requires Full(row)
    ensures Kept([row]) == [] && FullCount([row]) == 1
  {
    assert [row][..0] == [];
  }

  /** A row that is not full is kept on its own and not counted. */
  lemma KeptKeep(row: seq<int>)
    requires !Full(row)
    ensures Kept([row]) == [row] && FullCount([row]) == 0
  {
    assert [row][..0] == [];
  }

  /** A grid is the rows below r, row r and the rows above it. */
  lemma SplitAt(g: seq<seq<int>>, r: int)
    requires 0 <= r < |g|
    ensures g == g[..r] + [g[r]] + g[r + 1..]
  {
  }

  lemma KeptThree(lo: seq<seq<int>>, row: seq<int>, hi: seq<seq<int>>)
    ensures Kept(lo + [row] + hi) == Kept(lo) + Kept([row]) + Kept(hi)
    ensures FullCount(lo + [row] + hi) == FullCount(lo) + FullCount([row]) + FullCount(hi)
  {
    KeptAppend(lo, [row]);
    KeptAppend(lo + [row], hi);
  }

  /** The kept rows of a grid read as the rows below r, row r and the rows above it. */
  lemma KeptSplit(g: seq<seq<int>>, r: int)
    requires 0 <= r < |g|
    ensures Kept(g) == Kept(g[..r]) + Kept([g[r]]) + Kept(g[r + 1..])
    ensures FullCount(g) == FullCount(g[..r]) + FullCount([g[r]]) + FullCount(g[r + 1..])
  {
    SplitAt(g, r);
    KeptThree(g[..r], g[r], g[r + 1..]);
  }

  lemma KeptShifted(g: seq<seq<int>>, r: int)
    requires 0 <= r < |g|
    ensures Kept(Shifted(g, r)) == Kept([EmptyRow()]) + Kept(g[..r]) + Kept(g[r + 1..])
    ensures FullCount(Shifted(g, r)) == FullCount([EmptyRow()]) + FullCount(g[..r]) + FullCount(g[r + 1..])
  {
    KeptAppend([EmptyRow()], g[..r]);
    KeptAppend([EmptyRow()] + g[..r], g[r + 1..]);
  }

  lemma KeptJoin(e: seq<int>, kl: seq<seq<int>>, kh: seq<seq<int>>, kg: seq<seq<int>>, ks: seq<seq<int>>)
    requires kg == kl + [] + kh && ks == [e] + kl + kh
    ensures ks == [e] + kg
  {
    assert kl + [] == kl;
    assert [e] + kl + kh == [e] + (kl + kh);
  }

  lemma EmptyNotFull()
    ensures !Full(EmptyRow())
  {
    assert EmptyRow()[0] == 0;
  }

  /** The shift at a full row keeps the same rows, behind one more empty row on top. */
  lemma ShiftKept(g: seq<seq<int>>, r: int)
    requires 0 <= r < |g| && Full(g[r])
    ensures Kept(Shifted(g, r)) == [EmptyRow()] + Kept(g)
  {
    EmptyNotFull();
    KeptDrop(g[r]);
    KeptKeep(EmptyRow());
    KeptSplit(g, r);
    KeptShifted(g, r);
    KeptJoin(EmptyRow(), Kept(g[..r]), Kept(g[r + 1..]), Kept(g), Kept(Shifted(g, r)));
  }

  /** The shift at a full row leaves one full row fewer. */
  lemma ShiftCount(g: seq<seq<int>>, r: int)
    requires 0 <= r < |g| && Full(g[r])
    ensures FullCount(Shifted(g, r)) + 1 == FullCount(g)
  {
    EmptyNotFull();
    KeptDrop(g[r]);
    KeptKeep(EmptyRow());
    KeptSplit(g, r);
    KeptShifted(g, r);
  }

  /** Removing one full row this way leaves the end result of clearing unchanged and one full row fewer. */
  lemma ShiftClears(g: seq<seq<int>>, r: int)
    requires 0 <= r < |g| && Full(g[r])
    ensures Cleared(Shifted(g, r)) == Cleared(g) && FullCount(Shifted(g, r)) == FullCount(g) - 1
  {
    ShiftKept(g, r);
    ShiftCount(g, r);
    ClearedStep(Shifted(g, r), g);
  }

  /** A grid with one full row fewer and one more empty row above the same kept rows clears to the same result. */
  lemma ClearedStep(s: seq<seq<int>>, g: seq<seq<int>>)
    requires Kept(s) == [EmptyRow()] + Kept(g) && FullCount(s) + 1 == FullCount(g)
    ensures Cleared(s) == Cleared(g)
  {
    var m := FullCount(s);
    assert Empties(m + 1) == Empties(m) + [EmptyRow()];
    assert Empties(m) + ([EmptyRow()] + Kept(g)) == (Empties(m) + [EmptyRow()]) + Kept(g);
  }

  /** A well whose bottom row is full and the rest empty: one line to clear. */
  lemma LineClearUnscored()
    ensures var g := seq(Rows - 1, _ => EmptyRow()) + [seq(Cols, _ => 1)];
      Board(g) && FullCount(g) == 1 && ScoreFor(FullCount(g)) == 100
  {
    var top := seq(Rows - 1, _ => EmptyRow());
    var g := top + [seq(Cols, _ => 1)];
    assert 0 in EmptyRow() by { assert EmptyRow()[0] == 0; }
    NoFullRow(top);
    assert g[..|g| - 1] == top;
  }

  // ---------------------------------------------------------------------
  // Level and speed

  /** get_drop_speed: the entry for the level, the last one from level 11 on. */
  function DropSpeed(level: int): (ms: int)
    requires level >= 1
    ensures ms in DropSpeeds && (level >= 11 ==> ms == 80)
  {
    DropSpeeds[if level - 1 < |DropSpeeds| - 1 then level - 1 else |DropSpeeds| - 1]
  }

  /** A higher level never drops more slowly. */
  lemma DropSpeedFaster(l1: int, l2: int)
    requires 1 <= l1 <= l2
    ensures DropSpeed(l2) <= DropSpeed(l1)
  {
  }

  // ---------------------------------------------------------------------
  // Pieces and the game

  class Piece {
    const shapeIdx: PieceIndex
    var shape: seq<seq<int>>
    const color: int
    var x: int
    var y: int

    /** A new piece of the given kind at the top, centred. */
    constructor (idx: PieceIndex)
      ensures shapeIdx == idx && shape == ShapeOf(idx) && color == idx
      ensures x == Cols / 2 - |ShapeOf(idx)[0]| / 2 && y == 0
    {
      shapeIdx := idx;
      shape := ShapeOf(idx);
      color := idx;
      x := Cols / 2 - |ShapeOf(idx)[0]| / 2;
      y := 0;
    }

    /** The deep copy get_ghost_piece starts from. */
    constructor Copy(p: Piece)
      ensures shapeIdx == p.shapeIdx && shape == p.shape && color == p.color && x == p.x && y == p.y
    {
      shapeIdx := p.shapeIdx;
      shape := p.shape;
      color := p.color;
      x := p.x;
      y := p.y;
    }

    /** rotate: a quarter turn of the shape. */
    method Rotate()
      modifies this`shape
      ensures shape == Rotated(old(shape))
    {
      shape := Rotated(shape);
    }
  }

  class Game {
    var grid: seq<seq<int>>
    var current: Piece
    var next: Piece
    var gameOver: bool
    var score: int
    var linesCleared: int
    var level: int
    var dropTimer: int

    /**
     * The falling piece and the next one are distinct; the falling piece is
     * a rectangle with a filled cell and, while the game runs, fits; the
     * next piece is still in its spawn shape; the level follows the lines.
     */
    ghost predicate Valid()
      reads this, current, next
    {
      Board(grid) && current != next &&
      Rect(current.shape) && HasBlock(current.shape) &&
      next.shape == ShapeOf(next.shapeIdx) && next.color == next.shapeIdx &&
      (!gameOver ==> Fits(grid, current.shape, current.x, current.y)) &&
      score >= 0 && linesCleared >= 0 && level == 1 + linesCleared / 10
    }

    /** A new game: an empty well, the two drawn pieces, score 0, level 1. */
    constructor (first: PieceIndex, second: PieceIndex, now: int)
      ensures Valid() && !gameOver && grid == EmptyBoard()
      ensures score == 0 && linesCleared == 0 && level == 1 && dropTimer == now
      ensures current.shapeIdx == first && next.shapeIdx == second && fresh(current) && fresh(next)
    {
      grid := EmptyBoard();
      current := new Piece(first);
      next := new Piece(second);
      gameOver := false;
      score := 0;
      linesCleared := 0;
      level := 1;
      dropTimer := now;
      new;
      ShapeFacts(first);
      SpawnFits(first);
    }

    /** valid_move: the piece moved by (dx, dy) fits. */
    method ValidMove(piece: Piece, dx: int, dy: int) returns (ok: bool)
      requires Board(grid)
      ensures ok == Fits(grid, piece.shape, piece.x + dx, piece.y + dy)
    {
      var s, x, y := piece.shape, piece.x + dx, piece.y + dy;
      for r := 0 to |s|
        invariant forall a, b :: 0 <= a < r && 0 <= b < |s[a]| ==> CellOk(grid, s, x, y, a, b)
      {
        for c := 0 to |s[r]|
          invariant forall a, b :: 0 <= a < r && 0 <= b < |s[a]| ==> CellOk(grid, s, x, y, a, b)
          invariant forall b :: 0 <= b < c ==> CellOk(grid, s, x, y, r, b)
        {
          if s[r][c] != 0 {
            var newX, newY := x + c, y + r;
            if newX < 0 || newX >= Cols || newY >= Rows {
              assert !CellOk(grid, s, x, y, r, c);
              return false;
            }
            if newY >= 0 && grid[newY][newX] != 0 {
              assert !CellOk(grid, s, x, y, r, c);
              return false;
            }
          }
        }
      }
      return true;
    }

    /** move: shift the falling piece by (dx, dy) if it fits there, and say whether it moved. */
    method Move(dx: int, dy: int) returns (moved: bool)
      requires Valid()
      modifies current`x, current`y
      ensures Valid()
      ensures moved == Fits(grid, current.shape, old(current.x) + dx, old(current.y) + dy)
      ensures moved ==> current.x == old(current.x) + dx && current.y == old(current.y) + dy
      ensures !moved ==> current.x == old(current.x) && current.y == old(current.y)
    {
      moved := ValidMove(current, dx, dy);
      if moved {
        current.x := current.x + dx;
        current.y := current.y + dy;
      }
    }

    /** rotate_piece: turn the falling piece a quarter, and turn it back if it no longer fits. */
    method RotatePiece()
      requires Valid()
      modifies current`shape
      ensures Valid()
      ensures current.shape ==
        if Fits(grid, Rotated(old(current.shape)), current.x, current.y) then Rotated(old(current.shape)) else old(current.shape)
    {
      var originalShape := current.shape;
      RotatedRect(current.shape);
      RotatedBlock(current.shape);
      current.Rotate();
      var ok := ValidMove(current, 0, 0);
      if !ok {
        current.shape := originalShape;
      }
    }

    /** The first loop of lock_piece: write the piece's colour into every covered cell inside the well. */
    method LockCells()
      requires Board(grid) && Fits(grid, current.shape, current.x, current.y)
      modifies this`grid
      ensures grid == Locked(old(grid), current.shape, current.x, current.y, current.color)
    {
      var s, px, py, color := current.shape, current.x, current.y, current.color;
      ghost var g0 := grid;
      for r := 0 to |s|
        invariant Board(grid)
        invariant forall i, j :: 0 <= i < Rows && 0 <= j < Cols ==>
          grid[i][j] == if Covers(s, px, py, i, j) && i - py < r then color else g0[i][j]
      {
        for c := 0 to |s[r]|
          invariant Board(grid)
          invariant forall i, j :: 0 <= i < Rows && 0 <= j < Cols ==>
            grid[i][j] == if Covers(s, px, py, i, j) && (i - py < r || (i - py == r && j - px < c)) then color else g0[i][j]
        {
          if s[r][c] != 0 {
            var gy, gx := py + r, px + c;
            assert CellOk(g0, s, px, py, r, c);
            if gy >= 0 {
              grid := SetCell(grid, gy, gx, color);
            }
          }
        }
      }
      WellEq(grid, Locked(g0, s, px, py, color));
    }

    /** The shift of clear_lines: rows r-1 .. 0 move down one row and row 0 becomes empty. */
    method ShiftDown(r: int)
      requires Board(grid) && 0 <= r < Rows
      modifies this`grid
      ensures grid == Shifted(old(grid), r) && Board(grid)
    {
      ghost var g0 := grid;
      var nr := r;
      while nr > 0
        invariant 0 <= nr <= r && |grid| == Rows
        invariant grid == g0[..nr + 1] + g0[nr..r] + g0[r + 1..]
      {
        grid := grid[nr := grid[nr - 1]];
        nr := nr - 1;
      }
      grid := grid[0 := EmptyRow()];
    }

    /**
     * clear_lines as written: scan the rows bottom-up; at the first full
     * row shift everything above it down, call itself again and return.
     * The scoring after the scan only runs when no row was full, so it
     * never changes the score, the line count or the level.
     */
    method ClearLinesAsWritten()
      requires Board(grid)
      modifies this`grid, this`score, this`linesCleared, this`level
      ensures grid == Cleared(old(grid))
      ensures score == old(score) && linesCleared == old(linesCleared) && level == old(level)
      decreases FullCount(grid)
    {
      var linesToClear := 0;
      var r := Rows - 1;
      while r >= 0
        invariant -1 <= r < Rows && linesToClear == 0
        invariant forall k :: r < k < Rows ==> !Full(grid[k])
      {
        if 0 !in grid[r] {
          linesToClear := linesToClear + 1;
          ghost var g0 := grid;
          ShiftDown(r);
          ShiftClears(g0, r);
          ClearLinesAsWritten();
          return;
        }
        r := r - 1;
      }
      NoFullRow(grid);
      if linesToClear > 0 {
        // Lines 160-163 of clear_lines: never reached.
        assert false;
      }
    }

    /**
     * clear_lines as intended: stay on a row after clearing it, count every
     * cleared row, then add the points for that many lines times the level
     * and recompute the level from the line count.
     */
    method ClearLines()
      requires Board(grid) && score >= 0 && level >= 1
      modifies this`grid, this`score, this`linesCleared, this`level
      ensures grid == Cleared(old(grid)) && Board(grid)
      ensures linesCleared == old(linesCleared) + FullCount(old(grid))
      ensures score == old(score) + ScoreFor(FullCount(old(grid))) * old(level)
      ensures level == if FullCount(old(grid)) > 0 then 1 + linesCleared / 10 else old(level)
    {
      var linesToClear := ClearRows();
      if linesToClear > 0 {
        linesCleared := linesCleared + linesToClear;
        score := score + ScoreFor(linesToClear) * level;
        level := 1 + linesCleared / 10;
      }
    }

    /** The scan of clear_lines as intended: bottom-up, staying on a row after clearing it; answers how many rows it cleared. */
    method ClearRows() returns (linesToClear: int)
      requires Board(grid)
      modifies this`grid
      ensures grid == Cleared(old(grid)) && Board(grid)
      ensures linesToClear == FullCount(old(grid))
    {
      ghost var g0 := grid;
      linesToClear := 0;
      var r := Rows - 1;
      while r >= 0
        invariant -1 <= r < Rows && Board(grid)
        invariant Cleared(grid) == Cleared(g0) && linesToClear + FullCount(grid) == FullCount(g0)
        invariant forall k :: r < k < Rows ==> !Full(grid[k])
        decreases FullCount(grid), r
      {
        if 0 !in grid[r] {
          linesToClear := linesToClear + 1;
          ghost var g1 := grid;
          ShiftDown(r);
          ShiftClears(g1, r);
        } else {
          r := r - 1;
        }
      }
      NoFullRow(grid);
    }

    /**
     * lock_piece: write the falling piece into the well, clear lines, make
     * the next piece the falling one, draw a new next piece, and end the
     * game when the new falling piece does not fit.
     */
    method LockPiece(nextIdx: PieceIndex)
      requires Valid() && !gameOver
      modifies this
      ensures Valid()
      ensures grid == Cleared(Locked(old(grid), old(current.shape), old(current.x), old(current.y), old(current.color)))
      ensures linesCleared == old(linesCleared) +
        FullCount(Locked(old(grid), old(current.shape), old(current.x), old(current.y), old(current.color)))
      ensures score == old(score) +
        ScoreFor(FullCount(Locked(old(grid), old(current.shape), old(current.x), old(current.y), old(current.color)))) * old(level)
      ensures level == 1 + linesCleared / 10
      ensures current == old(next) && fresh(next) && next.shapeIdx == nextIdx
      ensures gameOver == !Fits(grid, current.shape, current.x, current.y)
      ensures dropTimer == old(dropTimer)
    {
      LockCells();
      ClearLines();
      SpawnNext(nextIdx);
    }

    /** The end of lock_piece: the next piece falls, a new next piece is drawn, and the game ends if the falling one does not fit. */
    method SpawnNext(nextIdx: PieceIndex)
      requires Board(grid) && current != next
      requires next.shape == ShapeOf(next.shapeIdx) && next.color == next.shapeIdx
      requires score >= 0 && linesCleared >= 0 && level == 1 + linesCleared / 10
      modifies this`current, this`next, this`gameOver
      ensures Valid()
      ensures current == old(next) && fresh(next) && next.shapeIdx == nextIdx
      ensures gameOver == !Fits(grid, current.shape, current.x, current.y)
    {
      current := next;
      next := new Piece(nextIdx);
      ShapeFacts(current.shapeIdx);
      var ok := ValidMove(current, 0, 0);
      gameOver := !ok;
    }

    /** get_ghost_piece: a copy of the falling piece pushed down while it fits one row lower. */
    method GhostPiece() returns (ghostPiece: Piece)
      requires Valid() && !gameOver
      ensures fresh(ghostPiece)
      ensures ghostPiece.shape == current.shape && ghostPiece.x == current.x
      ensures Landed(grid, current.shape, current.x, current.y, ghostPiece.y)
    {
      ghostPiece := new Piece.Copy(current);
      var s := current.shape;
      var r, c :| 0 <= r < |s| && 0 <= c < |s[r]| && s[r][c] != 0;
      while true
        invariant ghostPiece.shape == s && ghostPiece.x == current.x && ghostPiece.y >= current.y
        invariant forall y :: current.y <= y <= ghostPiece.y ==> Fits(grid, s, current.x, y)
        decreases Rows - ghostPiece.y
      {
        var ok := ValidMove(ghostPiece, 0, 1);
        if !ok { break; }
        assert CellOk(grid, s, current.x, ghostPiece.y + 1, r, c);
        ghostPiece.y := ghostPiece.y + 1;
      }
    }

    /** The loop of hard_drop: move the falling piece down while it can. */
    method DropToFloor()
      requires Valid() && !gameOver
      modifies current`x, current`y
      ensures Valid() && current.x == old(current.x)
      ensures Landed(grid, current.shape, current.x, old(current.y), current.y)
    {
      var s := current.shape;
      var r, c :| 0 <= r < |s| && 0 <= c < |s[r]| && s[r][c] != 0;
      while true
        invariant Valid() && current.shape == s && current.x == old(current.x) && current.y >= old(current.y)
        invariant forall y :: old(current.y) <= y <= current.y ==> Fits(grid, s, current.x, y)
        decreases Rows - current.y
      {
        var moved := Move(0, 1);
        if !moved { break; }
        assert CellOk(grid, s, current.x, current.y, r, c);
      }
    }

    /** hard_drop: drop the falling piece to where it comes to rest, lock it there, and restart the drop timer at now. */
    method HardDrop(nextIdx: PieceIndex, now: int)
      requires Valid() && !gameOver
      modifies this, current`x, current`y
      ensures Valid() && dropTimer == now
      ensures exists y ::
        Landed(old(grid), old(current.shape), old(current.x), old(current.y), y) &&
        var locked := Locked(old(grid), old(current.shape), old(current.x), y, old(current.color));
        grid == Cleared(locked) && linesCleared == old(linesCleared) + FullCount(locked) &&
        score == old(score) + ScoreFor(FullCount(locked)) * old(level)
      ensures level == 1 + linesCleared / 10
      ensures current == old(next) && fresh(next) && next.shapeIdx == nextIdx
      ensures gameOver == !Fits(grid, current.shape, current.x, current.y)
    {
      DropToFloor();
      ghost var y := current.y;
      LockPiece(nextIdx);
      dropTimer := now;
      assert Landed(old(grid), old(current.shape), old(current.x), old(current.y), y);
    }

    /** The step of update: move the falling piece down one row, or lock it where it is when it cannot move. */
    method Fall(nextIdx: PieceIndex)
      requires Valid() && !gameOver
      modifies this, current`x, current`y
      ensures Valid() && dropTimer == old(dropTimer)
      ensures Fits(old(grid), old(current.shape), old(current.x), old(current.y) + 1) ==>
        grid == old(grid) && current == old(current) && current.y == old(current.y) + 1 &&
        score == old(score) && linesCleared == old(linesCleared) && level == old(level) && gameOver == old(gameOver)
      ensures !Fits(old(grid), old(current.shape), old(current.x), old(current.y) + 1) ==>
        var locked := Locked(old(grid), old(current.shape), old(current.x), old(current.y), old(current.color));
        grid == Cleared(locked) && linesCleared == old(linesCleared) + FullCount(locked) &&
        score == old(score) + ScoreFor(FullCount(locked)) * old(level) && level == 1 + linesCleared / 10 &&
        current == old(next) && gameOver == !Fits(grid, current.shape, current.x, current.y)
    {
      var moved := Move(0, 1);
      if !moved {
        LockPiece(nextIdx);
      }
    }

    /**
     * update: nothing once the game is over; otherwise, when more than the
     * level's drop interval has passed since the drop timer at time now,
     * move the falling piece down one row, lock it if it cannot move, and
     * restart the timer.
     */
    method Update(now: int, nextIdx: PieceIndex)
      requires Valid()
      modifies this, current`x, current`y
      ensures Valid()
      ensures old(gameOver) || now - old(dropTimer) <= DropSpeed(old(level)) ==>
        grid == old(grid) && current == old(current) && current.y == old(current.y) && dropTimer == old(dropTimer) &&
        score == old(score) && linesCleared == old(linesCleared) && level == old(level) && gameOver == old(gameOver)
      ensures !old(gameOver) && now - old(dropTimer) > DropSpeed(old(level)) ==> dropTimer == now
      ensures (!old(gameOver) && now - old(dropTimer) > DropSpeed(old(level)) &&
        Fits(old(grid), old(current.shape), old(current.x), old(current.y) + 1)) ==>
        grid == old(grid) && current == old(current) && current.y == old(current.y) + 1 &&
        score == old(score) && linesCleared == old(linesCleared) && level == old(level) && gameOver == old(gameOver)
      ensures (!old(gameOver) && now - old(dropTimer) > DropSpeed(old(level)) &&
        !Fits(old(grid), old(current.shape), old(current.x), old(current.y) + 1)) ==>
        var locked := Locked(old(grid), old(current.shape), old(current.x), old(current.y), old(current.color));
        grid == Cleared(locked) && linesCleared == old(linesCleared) + FullCount(locked) &&
        score == old(score) + ScoreFor(FullCount(locked)) * old(level) && level == 1 + linesCleared / 10 &&
        current == old(next) && gameOver == !Fits(grid, current.shape, current.x, current.y)
    {
      if gameOver { return; }
      if now - dropTimer > DropSpeed(level) {
        Fall(nextIdx);
        dropTimer := now;
      }
    }
  }
}

/**
 * The rules of the chess engine as functions of a position: piece codes,
 * the pseudo-legal targets of each piece, the internal move (capture,
 * en passant, promotion to a queen, castling rook, castling rights), the
 * check test, and move generation with its side effect on the castling
 * rights.  The board object that applies these in place is in module
 * Chess.
 */
module ChessRules {
  import opened Options

  const Empty := 0
  const WPawn := 1
  const WKnight := 2
  const WBishop := 3
  const WRook := 4
  const WQueen := 5
  const WKing := 6
  const BPawn := 7
  const BKnight := 8
  const BBishop := 9
  const BRook := 10
  const BQueen := 11
  const BKing := 12

  type Grid = g: seq<seq<int>> | |g| == 8 && forall r :: 0 <= r < 8 ==> |g[r]| == 8
    witness seq(8, _ => seq(8, _ => 0))

  type Square = (int, int)

  predicate InBounds(r: int, c: int) { 0 <= r < 8 && 0 <= c < 8 }

  predicate OnBoard(s: Square) { InBounds(s.0, s.1) }

  /** The en passant target is absent or a square of the board. */
  type EpTarget = o: Option<Square> | o.None? || OnBoard(o.value) witness None

  /** Castling rights: white king side, white queen side, black king side, black queen side. */
  type Rights = s: seq<bool> | |s| == 4 witness [false, false, false, false]

  datatype Color = White | Black

  datatype Outcome = WhiteWins | BlackWins | Draw

  /** Everything a snapshot holds: the board, the side to move, the rights, the en passant target and the result. */
  datatype State = State(board: Grid, turn: Color, rights: Rights, ep: EpTarget, winner: Option<Outcome>)

  predicate IsWhite(p: int) { 1 <= p <= 6 }

  predicate IsBlack(p: int) { 7 <= p <= 12 }

  /** `t` belongs to the side `white` names. */
  predicate Own(white: bool, t: int) { if white then IsWhite(t) else IsBlack(t) }

  /** `t` belongs to the other side. */
  predicate Enemy(white: bool, t: int) { if white then IsBlack(t) else IsWhite(t) }

  /** The piece on a square, or None off the board. */
  function GetPiece(b: Grid, r: int, c: int): (p: Option<int>)
    ensures p.None? <==> !InBounds(r, c)
    ensures p.Some? ==> p.value == b[r][c]
  {
    if InBounds(r, c) then Some(b[r][c]) else None
  }

  function InitialBoard(): Grid
  {
    [[BRook, BKnight, BBishop, BQueen, BKing, BBishop, BKnight, BRook],
     seq(8, _ => BPawn),
     seq(8, _ => Empty),
     seq(8, _ => Empty),
     seq(8, _ => Empty),
     seq(8, _ => Empty),
     seq(8, _ => WPawn),
     [WRook, WKnight, WBishop, WQueen, WKing, WBishop, WKnight, WRook]]
  }

  function InitialState(): State
  {
    State(InitialBoard(), White, [true, true, true, true], None, None)
  }

  // ---------------------------------------------------------------------
  // Pseudo-legal targets (move generation without the check test)

  /** A piece of side `white` may land on `t`: on the board and not holding an own piece. */
  predicate Admits(b: Grid, white: bool, t: Square)
  {
    GetPiece(b, t.0, t.1).Some? && (b[t.0][t.1] == Empty || !Own(white, b[t.0][t.1]))
  }

  function KnightOffsets(): seq<Square>
  {
    [(2, 1), (2, -1), (-2, 1), (-2, -1), (1, 2), (1, -2), (-1, 2), (-1, -2)]
  }

  /** The king's neighbours, row by row. */
  function KingOffsets(): seq<Square>
  {
    [(-1, -1), (-1, 0), (-1, 1), (0, -1), (0, 1), (1, -1), (1, 0), (1, 1)]
  }

  function Shift(r: int, c: int, o: Square): Square { (r + o.0, c + o.1) }

  /** The single-step targets among the first `k` offsets, in order. */
  function StepTargets(b: Grid, white: bool, r: int, c: int, offs: seq<Square>, k: nat): seq<Square>
    requires k <= |offs|
  {
    if k == 0 then []
    else
      var t := Shift(r, c, offs[k - 1]);
      StepTargets(b, white, r, c, offs, k - 1) + (if Admits(b, white, t) then [t] else [])
  }

  /** Each step target admits the piece and lies one offset away. */
  lemma {:induction false} StepTargetsFacts(b: Grid, white: bool, r: int, c: int, offs: seq<Square>, k: nat)
    requires k <= |offs|
    ensures forall t :: t in StepTargets(b, white, r, c, offs, k) ==> Admits(b, white, t)
    ensures forall t :: t in StepTargets(b, white, r, c, offs, k) ==> exists o :: o in offs[..k] && t == Shift(r, c, o)
  {
    if k > 0 {
      StepTargetsFacts(b, white, r, c, offs, k - 1);
      assert offs[..k] == offs[..k - 1] + [offs[k - 1]];
    }
  }

  /** The square `i` steps from (r, c) along (dr, dc). */
  function Along(r: int, c: int, dr: int, dc: int, i: int): Square { (r + dr * i, c + dc * i) }

  /** Steps 1..i of the ray are all on the board and empty, so a slider passes them. */
  predicate Open(b: Grid, r: int, c: int, dr: int, dc: int, i: nat)
  {
    i == 0 || (Open(b, r, c, dr, dc, i - 1) && GetPiece(b, Along(r, c, dr, dc, i).0, Along(r, c, dr, dc, i).1) == Some(Empty))
  }

  /** The slider's targets among steps 1..n of a ray: it stops at the edge, before an own piece, and on a capture. */
  function Ray(b: Grid, white: bool, r: int, c: int, dr: int, dc: int, n: nat): seq<Square>
  {
    if n == 0 then []
    else
      var t := Along(r, c, dr, dc, n);
      Ray(b, white, r, c, dr, dc, n - 1) + (if Open(b, r, c, dr, dc, n - 1) && Admits(b, white, t) then [t] else [])
  }

  /** A ray that is closed after step `i` adds nothing further. */
  lemma {:induction false} RayClosed(b: Grid, white: bool, r: int, c: int, dr: int, dc: int, i: nat, n: nat)
    requires i <= n && !Open(b, r, c, dr, dc, i)
    ensures Ray(b, white, r, c, dr, dc, n) == Ray(b, white, r, c, dr, dc, i)
    decreases n
  {
    if n > i {
      RayClosed(b, white, r, c, dr, dc, i, n - 1);
      ClosedOnward(b, r, c, dr, dc, i, n - 1);
    }
  }

  lemma {:induction false} ClosedOnward(b: Grid, r: int, c: int, dr: int, dc: int, i: nat, n: nat)
    requires i <= n && !Open(b, r, c, dr, dc, i)
    ensures !Open(b, r, c, dr, dc, n)
    decreases n
  {
    if n > i {
      ClosedOnward(b, r, c, dr, dc, i, n - 1);
    }
  }

  function Diagonals(): seq<Square> { [(1, 1), (1, -1), (-1, 1), (-1, -1)] }

  function Orthogonals(): seq<Square> { [(1, 0), (-1, 0), (0, 1), (0, -1)] }

  /** A bishop slides diagonally, a rook orthogonally, a queen both ways, diagonals first. */
  function Dirs(piece: int): seq<Square>
  {
    (if piece != WRook && piece != BRook then Diagonals() else []) +
    (if piece != WBishop && piece != BBishop then Orthogonals() else [])
  }

  /** The targets of the first `k` rays of a slider, ray by ray. */
  function SlideTargets(b: Grid, white: bool, r: int, c: int, dirs: seq<Square>, k: nat): seq<Square>
    requires k <= |dirs|
  {
    if k == 0 then [] else SlideTargets(b, white, r, c, dirs, k - 1) + Ray(b, white, r, c, dirs[k - 1].0, dirs[k - 1].1, |b| - 1)
  }
  /** Each ray target admits the piece and lies past open squares only. */
  lemma {:induction false} RayFacts(b: Grid, white: bool, r: int, c: int, dr: int, dc: int, n: nat)
    ensures forall t :: t in Ray(b, white, r, c, dr, dc, n) ==> Admits(b, white, t)
    ensures forall t :: t in Ray(b, white, r, c, dr, dc, n) ==>
      exists i :: 1 <= i <= n && t == Along(r, c, dr, dc, i) && Open(b, r, c, dr, dc, i - 1)
  {
    if n > 0 {
      RayFacts(b, white, r, c, dr, dc, n - 1);
    }
  }

  /** Each slide target admits the piece. */
  lemma {:induction false} SlideTargetsAdmit(b: Grid, white: bool, r: int, c: int, dirs: seq<Square>, k: nat)
    requires k <= |dirs|
    ensures forall t :: t in SlideTargets(b, white, r, c, dirs, k) ==> Admits(b, white, t)
  {
    if k > 0 {
      SlideTargetsAdmit(b, white, r, c, dirs, k - 1);
      RayFacts(b, white, r, c, dirs[k - 1].0, dirs[k - 1].1, |b| - 1);
    }
  }


  /** One diagonal of a pawn: a capture of an enemy piece, then the en passant square. */
  function PawnSide(b: Grid, ep: EpTarget, white: bool, r: int, c: int, d: int, dc: int): seq<Square>
  {
    var t := GetPiece(b, r + d, c + dc);
    (if t.Some? && t.value != Empty && Enemy(white, t.value) then [(r + d, c + dc)] else []) +
    (if ep == Some((r + d, c + dc)) then [(r + d, c + dc)] else [])
  }

  /**
   * A pawn steps forward onto an empty square, twice from its start
   * row when both squares are empty, and captures diagonally or onto the
   * en passant square.
   */
  function PawnTargets(b: Grid, ep: EpTarget, white: bool, r: int, c: int): seq<Square>
  {
    var d := if white then -1 else 1;
    PawnAhead(b, white, r, c) + PawnSide(b, ep, white, r, c, d, -1) + PawnSide(b, ep, white, r, c, d, 1)
  }

  /** The pawn's steps forward: one onto an empty square, and a second from its start row onto another. */
  function PawnAhead(b: Grid, white: bool, r: int, c: int): seq<Square>
  {
    var d := if white then -1 else 1;
    var start := if white then 6 else 1;
    if GetPiece(b, r + d, c) == Some(Empty) then
      [(r + d, c)] + (if r == start && GetPiece(b, r + d * 2, c) == Some(Empty) then [(r + d * 2, c)] else [])
    else []
  }
  /** A pawn's targets are on the board; its diagonal ones are one row ahead, one file aside. */
  lemma PawnTargetsOnBoard(b: Grid, ep: EpTarget, white: bool, r: int, c: int)
    ensures forall t :: t in PawnTargets(b, ep, white, r, c) ==> OnBoard(t)
    ensures forall d, dc, t :: t in PawnSide(b, ep, white, r, c, d, dc) ==> OnBoard(t) && t == (r + d, c + dc)
  {
    forall d, dc, t | t in PawnSide(b, ep, white, r, c, d, dc) ensures OnBoard(t) && t == (r + d, c + dc) {
      if ep == Some((r + d, c + dc)) {
        assert OnBoard(ep.value);
      }
    }
  }


  predicate IsPawn(p: int) { p == WPawn || p == BPawn }
  predicate IsKnight(p: int) { p == WKnight || p == BKnight }
  predicate IsSlider(p: int) { p in {WBishop, BBishop, WRook, BRook, WQueen, BQueen} }
  predicate IsKing(p: int) { p == WKing || p == BKing }

  /** The targets of `piece` at (r, c) without the check test. */
  function Targets(b: Grid, ep: EpTarget, piece: int, r: int, c: int): seq<Square>
  {
    var white := IsWhite(piece);
    if IsPawn(piece) then PawnTargets(b, ep, white, r, c)
    else if IsKnight(piece) then StepTargets(b, white, r, c, KnightOffsets(), 8)
    else if IsSlider(piece) then SlideTargets(b, white, r, c, Dirs(piece), |Dirs(piece)|)
    else if IsKing(piece) then StepTargets(b, white, r, c, KingOffsets(), 8)
    else []
  }
  /** Every target is on the board, and every target of a piece other than a pawn is empty or holds an enemy. */
  lemma TargetsFacts(b: Grid, ep: EpTarget, piece: int, r: int, c: int)
    ensures forall t :: t in Targets(b, ep, piece, r, c) ==> InBounds(t.0, t.1)
    ensures !IsPawn(piece) ==> forall t :: t in Targets(b, ep, piece, r, c) ==> Admits(b, IsWhite(piece), t)
  {
    var white := IsWhite(piece);
    if IsPawn(piece) {
      PawnTargetsOnBoard(b, ep, white, r, c);
    } else if IsKnight(piece) {
      StepTargetsFacts(b, white, r, c, KnightOffsets(), 8);
    } else if IsSlider(piece) {
      SlideTargetsAdmit(b, white, r, c, Dirs(piece), |Dirs(piece)|);
    } else if IsKing(piece) {
      StepTargetsFacts(b, white, r, c, KingOffsets(), 8);
    }
  }

  /** The targets of each kind of piece. */
  lemma TargetsOfKind(b: Grid, ep: EpTarget, piece: int, r: int, c: int)
    ensures IsPawn(piece) ==> Targets(b, ep, piece, r, c) == PawnTargets(b, ep, IsWhite(piece), r, c)
    ensures IsKnight(piece) ==> Targets(b, ep, piece, r, c) == StepTargets(b, IsWhite(piece), r, c, KnightOffsets(), 8)
    ensures IsSlider(piece) ==> Targets(b, ep, piece, r, c) == SlideTargets(b, IsWhite(piece), r, c, Dirs(piece), |Dirs(piece)|)
    ensures !IsPawn(piece) && !IsKnight(piece) && !IsSlider(piece) && !IsKing(piece) ==> Targets(b, ep, piece, r, c) == []
  {
  }

  /** A king's targets are its step targets. */
  lemma KingTargets(b: Grid, ep: EpTarget, piece: int, r: int, c: int)
    requires IsKing(piece)
    ensures Targets(b, ep, piece, r, c) == StepTargets(b, IsWhite(piece), r, c, KingOffsets(), 8)
  {
  }


  // ---------------------------------------------------------------------
  // The internal move

  /** The castling rights after moving `p` from (r1, c1): a king loses both, a rook leaving its corner one. */
  function Clear(rights: Rights, p: int, r1: int, c1: int): (cleared: Rights)
    ensures forall i :: 0 <= i < 4 && cleared[i] ==> rights[i]
    ensures p == WKing ==> !cleared[0] && !cleared[1] && cleared[2..] == rights[2..]
    ensures p == BKing ==> !cleared[2] && !cleared[3] && cleared[..2] == rights[..2]
    ensures !IsKing(p) && p != WRook && p != BRook ==> cleared == rights
  {
    if p == WKing then rights[0 := false][1 := false]
    else if p == BKing then rights[2 := false][3 := false]
    else if p == WRook then
      (if (r1, c1) == (7, 0) then rights[1 := false] else if (r1, c1) == (7, 7) then rights[0 := false] else rights)
    else if p == BRook then
      (if (r1, c1) == (0, 0) then rights[3 := false] else if (r1, c1) == (0, 7) then rights[2 := false] else rights)
    else rights
  }

  lemma ClearIdempotent(rights: Rights, p: int, r1: int, c1: int)
    ensures Clear(Clear(rights, p, r1, c1), p, r1, c1) == Clear(rights, p, r1, c1)
  {
  }

  function Set(b: Grid, r: int, c: int, v: int): (b': Grid)
    requires InBounds(r, c)
    ensures b'[r][c] == v
    ensures forall x, y :: InBounds(x, y) && (x, y) != (r, c) ==> b'[x][y] == b[x][y]
  {
    b[r := b[r][c := v]]
  }

  function Abs(x: int): int { if x < 0 then -x else x }

  /** The board after the piece moves, its source empties and an en passant victim is removed. */
  function Displace(b: Grid, ep: EpTarget, r1: int, c1: int, r2: int, c2: int): Grid
    requires InBounds(r1, c1) && InBounds(r2, c2)
  {
    var p := b[r1][c1];
    var b1 := Set(Set(b, r2, c2, p), r1, c1, Empty);
    if IsPawn(p) && ep == Some((r2, c2)) then Set(b1, r1, c2, Empty) else b1
  }

  /** A pawn reaching the last rank becomes a queen of its colour. */
  function Promote(b: Grid, p: int, r2: int, c2: int): Grid
    requires InBounds(r2, c2)
  {
    if p == WPawn && r2 == 0 then Set(b, r2, c2, WQueen)
    else if p == BPawn && r2 == 7 then Set(b, r2, c2, BQueen)
    else b
  }

  /** A king moving two files brings the rook of that side next to it. */
  function CastleRook(b: Grid, p: int, c1: int, c2: int): Grid
  {
    if p == WKing && c2 - c1 == 2 then Set(Set(b, 7, 5, b[7][7]), 7, 7, Empty)
    else if p == WKing && c2 - c1 == -2 then Set(Set(b, 7, 3, b[7][0]), 7, 0, Empty)
    else if p == BKing && c2 - c1 == 2 then Set(Set(b, 0, 5, b[0][7]), 0, 7, Empty)
    else if p == BKing && c2 - c1 == -2 then Set(Set(b, 0, 3, b[0][0]), 0, 0, Empty)
    else b
  }

  /** The en passant target after a move: the skipped square after a double pawn push, else none. */
  function NextEp(p: int, r1: int, c1: int, r2: int): (ep: EpTarget)
    requires InBounds(r1, c1) && InBounds(r2, 0)
    ensures ep.Some? <==> IsPawn(p) && Abs(r2 - r1) == 2
  {
    if IsPawn(p) && Abs(r2 - r1) == 2 then Some(((r1 + r2) / 2, c1)) else None
  }

  /** move_piece_internal: the state after moving the piece on (r1, c1) to (r2, c2), with no legality test. */
  function MoveInternal(s: State, r1: int, c1: int, r2: int, c2: int): State
    requires InBounds(r1, c1) && InBounds(r2, c2)
  {
    var p := s.board[r1][c1];
    s.(board := MovedBoard(s.board, s.ep, r1, c1, r2, c2), ep := NextEp(p, r1, c1, r2), rights := Clear(s.rights, p, r1, c1))
  }

  /** The board part of the internal move, which reads only the board and the en passant target. */
  function MovedBoard(b: Grid, ep: EpTarget, r1: int, c1: int, r2: int, c2: int): Grid
    requires InBounds(r1, c1) && InBounds(r2, c2)
  {
    var p := b[r1][c1];
    CastleRook(Promote(Displace(b, ep, r1, c1, r2, c2), p, r2, c2), p, c1, c2)
  }

  /** Which squares an internal move may write. */
  predicate Touched(s: State, r1: int, c1: int, r2: int, c2: int, x: int, y: int)
    requires InBounds(r1, c1)
  {
    var p := s.board[r1][c1];
    (x, y) == (r1, c1) || (x, y) == (r2, c2) ||
    (IsPawn(p) && s.ep == Some((r2, c2)) && (x, y) == (r1, c2)) ||
    (IsKing(p) && Abs(c2 - c1) == 2 && (x == 0 || x == 7) && y in {0, 3, 5, 7})
  }

  /** Every square the move does not touch keeps its piece. */
  lemma MoveInternalFrame(s: State, r1: int, c1: int, r2: int, c2: int, x: int, y: int)
    requires InBounds(r1, c1) && InBounds(r2, c2) && InBounds(x, y) && !Touched(s, r1, c1, r2, c2, x, y)
    ensures MoveInternal(s, r1, c1, r2, c2).board[x][y] == s.board[x][y]
  {
  }

  /**
   * An ordinary move (not a king moving two files, and not a move onto
   * its own square) puts the piece, promoted on the last rank, on the
   * target and empties the source.
   */
  lemma MoveInternalPlaces(s: State, r1: int, c1: int, r2: int, c2: int)
    requires InBounds(r1, c1) && InBounds(r2, c2) && (r1, c1) != (r2, c2)
    requires !(IsKing(s.board[r1][c1]) && Abs(c2 - c1) == 2) && (IsPawn(s.board[r1][c1]) ==> r1 != r2)
    ensures var p, b := s.board[r1][c1], MoveInternal(s, r1, c1, r2, c2).board;
      b[r1][c1] == Empty &&
      b[r2][c2] == (if p == WPawn && r2 == 0 then WQueen else if p == BPawn && r2 == 7 then BQueen else p)
  {
    var p := s.board[r1][c1];
    var b1 := Displace(s.board, s.ep, r1, c1, r2, c2);
    assert b1[r2][c2] == p by {
      if IsPawn(p) && s.ep == Some((r2, c2)) {
        assert (r1, c2) != (r2, c2);
      }
    }
  }

  /** An en passant capture removes the pawn beside the source. */
  lemma MoveInternalEnPassant(s: State, r1: int, c1: int, r2: int, c2: int)
    requires InBounds(r1, c1) && InBounds(r2, c2) && (r1, c1) != (r2, c2)
    requires IsPawn(s.board[r1][c1]) && s.ep == Some((r2, c2)) && r1 != r2
    ensures MoveInternal(s, r1, c1, r2, c2).board[r1][c2] == Empty
  {
  }

  /** Castling king side puts the rook beside the king and empties its corner. */
  lemma MoveInternalCastles(s: State, c1: int, c2: int)
    requires InBounds(7, c1) && InBounds(7, c2) && s.board[7][c1] == WKing && c2 - c1 == 2 && c1 != 5 && c2 != 5
    ensures MoveInternal(s, 7, c1, 7, c2).board[7][5] == s.board[7][7]
    ensures MoveInternal(s, 7, c1, 7, c2).board[7][7] == Empty
    ensures MoveInternal(s, 7, c1, 7, c2).board[7][c2] == WKing
  {
  }

  // ---------------------------------------------------------------------
  // Check

  /** The first square, row by row from index `i`, holding `king`. */
  function FindFrom(b: Grid, king: int, i: nat): (sq: Option<Square>)
    requires i <= 64
    decreases 64 - i
  {
    if i == 64 then None
    else if b[i / 8][i % 8] == king then Some((i / 8, i % 8))
    else FindFrom(b, king, i + 1)
  }

  /** The search from index `i` finds the first square from there on holding the king, or None when there is none. */
  lemma {:induction false} FindFromMeans(b: Grid, king: int, i: nat)
    requires i <= 64
    ensures var sq := FindFrom(b, king, i);
      (sq.Some? ==> OnBoard(sq.value) && b[sq.value.0][sq.value.1] == king && sq.value.0 * 8 + sq.value.1 >= i) &&
      (sq.Some? ==> forall j :: i <= j < sq.value.0 * 8 + sq.value.1 ==> b[j / 8][j % 8] != king) &&
      (sq.None? ==> forall j :: i <= j < 64 ==> b[j / 8][j % 8] != king)
    decreases 64 - i
  {
    if i < 64 && b[i / 8][i % 8] != king {
      FindFromMeans(b, king, i + 1);
    }
  }

  /** One square of the search: the king here, or further on. */
  lemma FindFromStep(b: Grid, king: int, r: int, c: int)
    requires InBounds(r, c)
    ensures FindFrom(b, king, 8 * r + c) == if b[r][c] == king then Some((r, c)) else FindFrom(b, king, 8 * r + c + 1)
  {
    IndexOf(r, c);
  }

  /** find_king: the first square holding the king of that colour. */
  function FindKing(b: Grid, white: bool): Option<Square>
  {
    FindFrom(b, if white then WKing else BKing, 0)
  }

  /** The piece on (x, y) is an enemy of side `white` and has `kp` among its targets. */
  predicate Attacks(b: Grid, ep: EpTarget, white: bool, kp: Square, x: int, y: int)
  {
    InBounds(x, y) && b[x][y] != Empty && Enemy(white, b[x][y]) && kp in Targets(b, ep, b[x][y], x, y)
  }

  /** Some square among the first `n`, row by row, satisfies `f`. */
  function AnyFrom(f: Square -> bool, n: nat): bool
    requires n <= 64
  {
    n > 0 && (AnyFrom(f, n - 1) || f(((n - 1) / 8, (n - 1) % 8)))
  }

  /** The row-major index of a square names that square. */
  lemma IndexOf(x: int, y: int)
    requires InBounds(x, y)
    ensures (x * 8 + y) / 8 == x && (x * 8 + y) % 8 == y
  {
  }

  lemma {:induction false} AnyFromMeans(f: Square -> bool, n: nat)
    requires n <= 64
    ensures AnyFrom(f, n) <==> exists x, y :: InBounds(x, y) && x * 8 + y < n && f((x, y))
  {
    if n > 0 {
      AnyFromMeans(f, n - 1);
      var x, y := (n - 1) / 8, (n - 1) % 8;
      assert x * 8 + y == n - 1;
      forall x', y' | InBounds(x', y') && x' * 8 + y' < n && f((x', y')) ensures AnyFrom(f, n) {
        if x' * 8 + y' == n - 1 {
          IndexOf(x', y');
        }
      }
    }
  }

  /** Some enemy piece on the first `n` squares, row by row, has `kp` among its targets. */
  function AttackedBy(b: Grid, ep: EpTarget, white: bool, kp: Square, n: nat): bool
    requires n <= 64
  {
    AnyFrom((q: Square) => Attacks(b, ep, white, kp, q.0, q.1), n)
  }

  /** Scanning one more square adds exactly that square's piece. */
  lemma AttackedByStep(b: Grid, ep: EpTarget, white: bool, kp: Square, r: int, c: int)
    requires InBounds(r, c)
    ensures AttackedBy(b, ep, white, kp, 8 * r + c + 1) == (AttackedBy(b, ep, white, kp, 8 * r + c) || Attacks(b, ep, white, kp, r, c))
  {
    AnyFromStep((q: Square) => Attacks(b, ep, white, kp, q.0, q.1), r, c);
  }

  lemma AnyFromStep(f: Square -> bool, r: int, c: int)
    requires InBounds(r, c)
    ensures AnyFrom(f, 8 * r + c + 1) == (AnyFrom(f, 8 * r + c) || f((r, c)))
  {
    IndexOf(r, c);
  }

  /** One attacking piece is enough. */
  lemma AttackedAt(b: Grid, ep: EpTarget, white: bool, kp: Square, x: int, y: int)
    requires Attacks(b, ep, white, kp, x, y)
    ensures AttackedBy(b, ep, white, kp, 64)
  {
    AnyFromMeans((q: Square) => Attacks(b, ep, white, kp, q.0, q.1), 64);
  }

  /** is_in_check: true without a king, otherwise when an enemy piece reaches the king. */
  function InCheck(b: Grid, ep: EpTarget, white: bool): bool
  {
    var kp := FindKing(b, white);
    kp.None? || AttackedBy(b, ep, white, kp.value, 64)
  }

  /** A side is in check exactly when its king is missing or some enemy piece has the king square as a target. */
  lemma InCheckMeans(b: Grid, ep: EpTarget, white: bool)
    ensures InCheck(b, ep, white) <==>
      (FindKing(b, white).None? || exists x, y :: Attacks(b, ep, white, FindKing(b, white).value, x, y))
  {
    if FindKing(b, white).Some? {
      var kp := FindKing(b, white).value;
      AnyFromMeans((q: Square) => Attacks(b, ep, white, kp, q.0, q.1), 64);
    }
  }

  // ---------------------------------------------------------------------
  // Move generation with the check test

  /** simulate_move's answer: the mover's own king is not in check after the internal move. */
  predicate Safe(b: Grid, ep: EpTarget, r1: int, c1: int, r2: int, c2: int)
  {
    InBounds(r1, c1) && InBounds(r2, c2) &&
    !InCheck(MovedBoard(b, ep, r1, c1, r2, c2), NextEp(b[r1][c1], r1, c1, r2), IsWhite(b[r1][c1]))
  }

  /** The elements of `ts` that satisfy `f`, in order. */
  function Filter(ts: seq<Square>, f: Square -> bool): seq<Square>
  {
    if ts == [] then [] else Filter(ts[..|ts| - 1], f) + (if f(ts[|ts| - 1]) then [ts[|ts| - 1]] else [])
  }

  lemma {:induction false} FilterMembers(ts: seq<Square>, f: Square -> bool)
    ensures forall t :: t in Filter(ts, f) <==> t in ts && f(t)
    decreases |ts|
  {
    if ts != [] {
      var u := ts[..|ts| - 1];
      assert ts == u + [ts[|ts| - 1]];
      FilterMembers(u, f);
    }
  }

  lemma {:induction false} FilterAppend(ts: seq<Square>, us: seq<Square>, f: Square -> bool)
    ensures Filter(ts + us, f) == Filter(ts, f) + Filter(us, f)
    decreases |us|
  {
    if us == [] {
      assert ts + us == ts;
    } else {
      var u := us[..|us| - 1];
      assert (ts + us)[..|ts + us| - 1] == ts + u;
      FilterAppend(ts, u, f);
    }
  }

  /** The targets, in order, that pass simulate_move. */
  function Keep(b: Grid, ep: EpTarget, r: int, c: int, ts: seq<Square>): seq<Square>
  {
    Filter(ts, (t: Square) => Safe(b, ep, r, c, t.0, t.1))
  }

  /** Trying one more target adds it exactly when it passes simulate_move. */
  lemma KeepSnoc(b: Grid, ep: EpTarget, r: int, c: int, ts: seq<Square>, t: Square)
    ensures Keep(b, ep, r, c, ts + [t]) == Keep(b, ep, r, c, ts) + (if Safe(b, ep, r, c, t.0, t.1) then [t] else [])
  {
    FilterAppend(ts, [t], (u: Square) => Safe(b, ep, r, c, u.0, u.1));
    assert [t][..0] == [];
  }

  /** Filtering keeps exactly the targets that pass simulate_move. */
  lemma KeepMembers(b: Grid, ep: EpTarget, r: int, c: int, ts: seq<Square>)
    ensures forall t :: t in Keep(b, ep, r, c, ts) <==> t in ts && Safe(b, ep, r, c, t.0, t.1)
  {
    FilterMembers(ts, (t: Square) => Safe(b, ep, r, c, t.0, t.1));
  }

  /** The castling squares a king of side `white` is offered: none in check, else each side whose right holds and whose squares are empty. */
  function CastleTargets(b: Grid, ep: EpTarget, rights: Rights, white: bool): (ts: seq<Square>)
    ensures forall t :: t in ts ==> t.0 == (if white then 7 else 0) && (t.1 == 6 || t.1 == 2)
  {
    if InCheck(b, ep, white) then []
    else
      var row := if white then 7 else 0;
      var idx := if white then 0 else 2;
      (if rights[idx] && GetPiece(b, row, 5) == Some(Empty) && GetPiece(b, row, 6) == Some(Empty) then [(row, 6)] else []) +
      (if rights[idx + 1] && GetPiece(b, row, 1) == Some(Empty) && GetPiece(b, row, 2) == Some(Empty) &&
          GetPiece(b, row, 3) == Some(Empty) then [(row, 2)] else [])
  }

  /** A generated move list and the castling rights left behind by the trial moves. */
  datatype Gen = Gen(moves: seq<Square>, rights: Rights)

  /**
   * get_valid_moves as written.  With the check test every target is
   * tried with simulate_move, and each trial runs the internal move,
   * which clears the castling rights of a king or a cornered rook and is
   * never undone; the castling squares are then looked up with the
   * rights that are left.
   */
  function ValidMoves(s: State, piece: int, r: int, c: int, check: bool): (g: Gen)
    requires InBounds(r, c)
  {
    var ts := Targets(s.board, s.ep, piece, r, c);
    if !check then Gen(ts, s.rights)
    else
      var rights := if |ts| > 0 then Clear(s.rights, s.board[r][c], r, c) else s.rights;
      Gen(Keep(s.board, s.ep, r, c, ts) + (if IsKing(piece) then CastleTargets(s.board, s.ep, rights, IsWhite(piece)) else []), rights)
  }

  /** Generation is the tried targets, filtered with the check test, then a king's castling squares with the rights left. */
  lemma ValidMovesShape(s: State, piece: int, r: int, c: int, check: bool)
    requires InBounds(r, c)
    ensures var ts := Targets(s.board, s.ep, piece, r, c);
      var rights := if check && |ts| > 0 then Clear(s.rights, s.board[r][c], r, c) else s.rights;
      ValidMoves(s, piece, r, c, check) ==
        Gen((if check then Keep(s.board, s.ep, r, c, ts) else ts) +
            (if check && IsKing(piece) then CastleTargets(s.board, s.ep, rights, IsWhite(piece)) else []), rights)
  {
  }

  /** Without the check test the moves are the targets and the rights stay. */
  lemma UncheckedMoves(s: State, piece: int, r: int, c: int)
    requires InBounds(r, c)
    ensures ValidMoves(s, piece, r, c, false) == Gen(Targets(s.board, s.ep, piece, r, c), s.rights)
  {
  }

  /**
   * Every move generated with the check test either passed
   * simulate_move or is a castling square of a king, which is added
   * without that test; the rights only ever lose entries.
   */
  lemma ValidMovesChecked(s: State, piece: int, r: int, c: int, t: Square)
    requires InBounds(r, c) && t in ValidMoves(s, piece, r, c, true).moves
    ensures (t in Targets(s.board, s.ep, piece, r, c) && Safe(s.board, s.ep, r, c, t.0, t.1)) ||
            (IsKing(piece) && t in CastleTargets(s.board, s.ep, ValidMoves(s, piece, r, c, true).rights, IsWhite(piece)))
  {
    KeepMembers(s.board, s.ep, r, c, Targets(s.board, s.ep, piece, r, c));
  }

  /** The rights left by generation depend only on the rights it started with, the moving piece and its square. */
  lemma ValidMovesRights(s: State, piece: int, r: int, c: int)
    requires InBounds(r, c)
    ensures forall i :: 0 <= i < 4 && ValidMoves(s, piece, r, c, true).rights[i] ==> s.rights[i]
  {
  }

  /** The king's home square, the only one from which castling can be meant. */
  function Home(white: bool): Square { if white then (7, 4) else (0, 4) }

  /**
   * As written, castling is never offered to a king on its home square:
   * each castling side needs the square next to the king empty, that
   * square is a target, so a trial move of the king runs first and
   * clears both rights of its colour before they are read.
   */
  lemma CastlingNeverOffered(s: State, piece: int)
    requires IsKing(piece) && s.board[Home(IsWhite(piece)).0][Home(IsWhite(piece)).1] == piece
    ensures forall t :: t in ValidMoves(s, piece, Home(IsWhite(piece)).0, Home(IsWhite(piece)).1, true).moves ==>
      Abs(t.1 - 4) <= 1
  {
    var white := IsWhite(piece);
    var (r, c) := Home(white);
    var ts := Targets(s.board, s.ep, piece, r, c);
    var g := ValidMoves(s, piece, r, c, true);
    HomeKingRightsCleared(s, piece);
    CastleTargetsNone(s.board, s.ep, g.rights, white);
    assert g.moves == Keep(s.board, s.ep, r, c, ts) + [];
    KeepMembers(s.board, s.ep, r, c, ts);
    KingTargets(s.board, s.ep, piece, r, c);
    forall t | t in g.moves ensures Abs(t.1 - 4) <= 1 {
      KingTargetsAdjacent(s.board, white, r, c, 8, t);
    }
  }

  /** The trial moves of a king at home clear each right whose castling square next to the king is empty. */
  lemma HomeKingRightsCleared(s: State, piece: int)
    requires IsKing(piece) && s.board[Home(IsWhite(piece)).0][Home(IsWhite(piece)).1] == piece
    ensures var white := IsWhite(piece); var row := if white then 7 else 0; var idx := if white then 0 else 2;
      var g := ValidMoves(s, piece, row, 4, true);
      (s.board[row][5] == Empty ==> !g.rights[idx]) && (s.board[row][3] == Empty ==> !g.rights[idx + 1])
  {
    var white := IsWhite(piece);
    var (r, c) := Home(white);
    var ts := Targets(s.board, s.ep, piece, r, c);
    KingTargets(s.board, s.ep, piece, r, c);
    if s.board[r][5] == Empty {
      KingSeesNeighbour(s.board, white, r, c, 4);
    }
    if s.board[r][3] == Empty {
      KingSeesNeighbour(s.board, white, r, c, 3);
    }
  }

  lemma CastleTargetsNone(b: Grid, ep: EpTarget, rights: Rights, white: bool)
    requires var row := if white then 7 else 0; var idx := if white then 0 else 2;
      (b[row][5] == Empty ==> !rights[idx]) && (b[row][3] == Empty ==> !rights[idx + 1])
    ensures CastleTargets(b, ep, rights, white) == []
  {
  }

  lemma KingTargetsAdjacent(b: Grid, white: bool, r: int, c: int, k: nat, t: Square)
    requires k <= 8 && t in StepTargets(b, white, r, c, KingOffsets(), k)
    ensures Abs(t.1 - c) <= 1
  {
    StepTargetsFacts(b, white, r, c, KingOffsets(), k);
    var o :| o in KingOffsets()[..k] && t == Shift(r, c, o);
  }

  /** An empty neighbour is among the king's step targets. */
  lemma KingSeesNeighbour(b: Grid, white: bool, r: int, c: int, k: nat)
    requires 3 <= k < 5 && InBounds(r, c + KingOffsets()[k].1) && KingOffsets()[k].0 == 0
    requires b[r][c + KingOffsets()[k].1] == Empty
    ensures (r, c + KingOffsets()[k].1) in StepTargets(b, white, r, c, KingOffsets(), 8)
  {
    StepTargetsGrow(b, white, r, c, KingOffsets(), k + 1, 8);
  }

  lemma {:induction false} StepTargetsGrow(b: Grid, white: bool, r: int, c: int, offs: seq<Square>, k: nat, n: nat)
    requires 0 < k <= n <= |offs| && Admits(b, white, Shift(r, c, offs[k - 1]))
    ensures Shift(r, c, offs[k - 1]) in StepTargets(b, white, r, c, offs, n)
    decreases n
  {
    if n > k {
      StepTargetsGrow(b, white, r, c, offs, k, n - 1);
    }
  }

  /**
   * The evidently intended generation: simulate_move also restores the
   * castling rights, so trial moves leave them as they were.
   */
  function ValidMovesRestoring(s: State, piece: int, r: int, c: int): (g: Gen)
    requires InBounds(r, c)
    ensures g.rights == s.rights
  {
    var ts := Targets(s.board, s.ep, piece, r, c);
    Gen(Keep(s.board, s.ep, r, c, ts) + (if IsKing(piece) then CastleTargets(s.board, s.ep, s.rights, IsWhite(piece)) else []), s.rights)
  }

  /** With restored rights a king at home that holds the king-side right, with both squares empty and not in check, may castle. */
  lemma CastlingOfferedWhenRestored(s: State, piece: int)
    requires IsKing(piece)
    requires var white := IsWhite(piece); var row := if white then 7 else 0;
      s.rights[if white then 0 else 2] && s.board[row][5] == Empty && s.board[row][6] == Empty &&
      !InCheck(s.board, s.ep, white)
    ensures (if IsWhite(piece) then 7 else 0, 6) in ValidMovesRestoring(s, piece, Home(IsWhite(piece)).0, Home(IsWhite(piece)).1).moves
  {
  }

  // ---------------------------------------------------------------------
  // Outcome of a side with no move

  /**
   * make_move as written: white stuck records black in check and a draw
   * otherwise; black stuck records a draw out of check and black, not
   * white, in check.
   */
  function StuckWinner(white: bool, inCheck: bool): Outcome
  {
    var first := if inCheck then BlackWins else if white then Draw else WhiteWins;
    if !white && !inCheck then Draw else first
  }

  /** The recorded winner for a mated black side is black itself. */
  lemma BlackMatedRecordedAsBlack()
    ensures StuckWinner(false, true) == BlackWins
    ensures StuckWinner(true, true) == BlackWins
  {
  }

  /** The evidently intended outcome: the mated side loses and stalemate is a draw. */
  function StuckWinnerIntended(white: bool, inCheck: bool): (o: Outcome)
    ensures inCheck ==> o == (if white then BlackWins else WhiteWins)
    ensures !inCheck ==> o == Draw
  {
    if !inCheck then Draw else if white then BlackWins else WhiteWins
  }

  /** The two agree except for a mated black side. */
  lemma StuckWinnerDiffers(white: bool, inCheck: bool)
    ensures StuckWinner(white, inCheck) == StuckWinnerIntended(white, inCheck) <==> white || !inCheck
  {
  }

  // ---------------------------------------------------------------------
  // Whole-side scans

  /** The first index of the row after the one holding index `i`. */
  function NextRow(i: nat): (j: nat)
    requires i < 64
    ensures i < j <= 64 && j % 8 == 0
  {
    (i / 8 + 1) * 8
  }

  /**
   * What a whole-side scan asks of the square at a row-major index,
   * given the castling rights left so far: the moves found there and the
   * rights the asking leaves behind.
   */
  type Ask = (nat, Rights) -> Gen

  /** make_move's search for a reply, from index `i` on: the first square with a move ends the scan of its row only. */
  function ScanWith(ask: Ask, i: nat, found: bool, rights: Rights): (bool, Rights)
    requires i <= 64
    decreases 64 - i
  {
    if i == 64 then (found, rights)
    else
      var g := ask(i, rights);
      if |g.moves| > 0 then ScanWith(ask, NextRow(i), true, g.rights)
      else ScanWith(ask, i + 1, found, g.rights)
  }

  /** get_all_moves from index `i` on: the moves of every square, row by row, threading the rights. */
  function AllWith(ask: Ask, i: nat, acc: seq<Move>, rights: Rights): (seq<Move>, Rights)
    requires i <= 64
    decreases 64 - i
  {
    if i == 64 then (acc, rights)
    else
      var g := ask(i, rights);
      AllWith(ask, i + 1, acc + Pairs((i / 8, i % 8), g.moves), g.rights)
  }

  predicate NoRights(rights: Rights) { forall i :: 0 <= i < 4 ==> !rights[i] }

  /** Asking a square only ever clears rights. */
  ghost predicate Shrinks(ask: Ask)
  {
    forall i: nat, rt: Rights, k :: 0 <= k < 4 && ask(i, rt).rights[k] ==> rt[k]
  }

  /** A scan finds a reply when some square from `i` on has a move whatever the rights. */
  lemma {:induction false} ScanWithFinds(ask: Ask, must: nat -> bool, i: nat, found: bool, rights: Rights)
    requires i <= 64
    requires forall j, rt: Rights :: must(j) ==> |ask(j, rt).moves| > 0
    ensures (found || exists j :: i <= j < 64 && must(j)) ==> ScanWith(ask, i, found, rights).0
    decreases 64 - i
  {
    if i < 64 {
      var g := ask(i, rights);
      if |g.moves| > 0 {
        ScanWithFinds(ask, must, NextRow(i), true, g.rights);
      } else {
        ScanWithFinds(ask, must, i + 1, found, g.rights);
        if exists j :: i <= j < 64 && must(j) {
          var j :| i <= j < 64 && must(j);
          assert j != i;
        }
      }
    }
  }

  /** When no right is left and a move somewhere implies `must` there, the scan finds a reply only where `must` holds. */
  lemma {:induction false} ScanWithOnly(ask: Ask, must: nat -> bool, i: nat, found: bool, rights: Rights)
    requires i <= 64 && NoRights(rights)
    requires forall j, rt: Rights :: NoRights(rt) ==> NoRights(ask(j, rt).rights) && (|ask(j, rt).moves| > 0 ==> must(j))
    ensures ScanWith(ask, i, found, rights).0 ==> found || exists j :: i <= j < 64 && must(j)
    decreases 64 - i
  {
    if i < 64 {
      var g := ask(i, rights);
      if |g.moves| == 0 {
        ScanWithOnly(ask, must, i + 1, found, g.rights);
      }
    }
  }

  /** A scan only clears rights. */
  lemma {:induction false} ScanWithShrinks(ask: Ask, i: nat, found: bool, rights: Rights)
    requires i <= 64 && Shrinks(ask)
    ensures forall k :: 0 <= k < 4 && ScanWith(ask, i, found, rights).1[k] ==> rights[k]
    decreases 64 - i
  {
    if i < 64 {
      var g := ask(i, rights);
      if |g.moves| > 0 {
        ScanWithShrinks(ask, NextRow(i), true, g.rights);
      } else {
        ScanWithShrinks(ask, i + 1, found, g.rights);
      }
    }
  }

  /** The moves already collected stay in the list. */
  lemma {:induction false} AllWithGrows(ask: Ask, i: nat, acc: seq<Move>, rights: Rights, m: Move)
    requires i <= 64 && m in acc
    ensures m in AllWith(ask, i, acc, rights).0
    decreases 64 - i
  {
    if i < 64 {
      var g := ask(i, rights);
      AllWithGrows(ask, i + 1, acc + Pairs((i / 8, i % 8), g.moves), g.rights, m);
    }
  }

  /** Every listed move satisfies `ok` when every move any square offers does. */
  lemma {:induction false} AllWithSound(ask: Ask, ok: Move -> bool, i: nat, acc: seq<Move>, rights: Rights)
    requires i <= 64 && forall m :: m in acc ==> ok(m)
    requires forall j, rt: Rights, k :: j < 64 && 0 <= k < |ask(j, rt).moves| ==> ok(((j / 8, j % 8), ask(j, rt).moves[k]))
    ensures forall m :: m in AllWith(ask, i, acc, rights).0 ==> ok(m)
    decreases 64 - i
  {
    if i < 64 {
      var g := ask(i, rights);
      var ps := Pairs((i / 8, i % 8), g.moves);
      forall m | m in acc + ps ensures ok(m) {
        if m !in acc {
          var k :| 0 <= k < |ps| && ps[k] == m;
          assert ok(((i / 8, i % 8), ask(i, rights).moves[k]));
        }
      }
      AllWithSound(ask, ok, i + 1, acc + ps, g.rights);
    }
  }

  /** A target that square `i` offers with the rights in hand is listed. */
  lemma AllWithHere(ask: Ask, i: nat, acc: seq<Move>, rights: Rights, t: Square)
    requires i < 64 && t in ask(i, rights).moves
    ensures ((i / 8, i % 8), t) in AllWith(ask, i, acc, rights).0
  {
    var g := ask(i, rights);
    var ps := Pairs((i / 8, i % 8), g.moves);
    var k :| 0 <= k < |g.moves| && g.moves[k] == t;
    assert ps[k] == ((i / 8, i % 8), t);
    AllWithGrows(ask, i + 1, acc + ps, g.rights, ((i / 8, i % 8), t));
  }

  /** A target that square `j` offers whatever the rights is listed. */
  lemma {:induction false} AllWithComplete(ask: Ask, i: nat, acc: seq<Move>, rights: Rights, j: nat, t: Square)
    requires i <= j < 64 && forall rt: Rights :: t in ask(j, rt).moves
    ensures ((j / 8, j % 8), t) in AllWith(ask, i, acc, rights).0
    decreases 64 - i
  {
    if j == i {
      AllWithHere(ask, i, acc, rights, t);
    } else {
      var g := ask(i, rights);
      var acc' := acc + Pairs((i / 8, i % 8), g.moves);
      assert AllWith(ask, i, acc, rights) == AllWith(ask, i + 1, acc', g.rights);
      AllWithComplete(ask, i + 1, acc', g.rights, j, t);
    }
  }

  // Instantiated with the game's own move generation

  /** A piece of side `white` on (x, y) with at least one move that passes simulate_move. */
  predicate Movable(b: Grid, ep: EpTarget, white: bool, x: int, y: int)
  {
    InBounds(x, y) && b[x][y] != Empty && Own(white, b[x][y]) &&
    |Keep(b, ep, x, y, Targets(b, ep, b[x][y], x, y))| > 0
  }

  /**
   * What the scans use of one generation call: the moves that passed
   * simulate_move come first, the rights only lose entries, and with no
   * right left the castling squares add nothing.
   */
  lemma GenFacts(s: State, rights: Rights, p: int, x: int, y: int)
    requires InBounds(x, y)
    ensures var g := ValidMoves(s.(rights := rights), p, x, y, true);
      var kept := Keep(s.board, s.ep, x, y, Targets(s.board, s.ep, p, x, y));
      |kept| <= |g.moves| && g.moves[..|kept|] == kept &&
      (forall k :: 0 <= k < 4 && g.rights[k] ==> rights[k]) &&
      (NoRights(rights) ==> g.moves == kept)
  {
    var g := ValidMoves(s.(rights := rights), p, x, y, true);
    if NoRights(rights) && IsKing(p) {
      CastleTargetsNone(s.board, s.ep, g.rights, IsWhite(p));
    }
  }

  /** What make_move and get_all_moves ask of the square at index `i`: an own piece's generated moves, nothing otherwise. */
  function GenAt(s: State, white: bool, i: nat, rights: Rights): Gen
    requires i < 64
  {
    var x, y := i / 8, i % 8;
    var p := s.board[x][y];
    if p != Empty && Own(white, p) then ValidMoves(s.(rights := rights), p, x, y, true)
    else Gen([], rights)
  }

  function AskOf(s: State, white: bool): Ask
  {
    (i: nat, rt: Rights) => if i < 64 then GenAt(s, white, i, rt) else Gen([], rt)
  }

  /** make_move's scan of side `white` for a reply, and the rights it leaves behind. */
  function ScanFrom(s: State, white: bool): (bool, Rights)
  {
    ScanWith(AskOf(s, white), 0, false, s.rights)
  }

  /** get_all_moves: the moves of side `white` and the rights its trial moves leave behind. */
  function AllMoves(s: State, white: bool): (seq<Move>, Rights)
  {
    AllWith(AskOf(s, white), 0, [], s.rights)
  }

  lemma AskOfShrinks(s: State, white: bool)
    ensures Shrinks(AskOf(s, white))
  {
    forall i: nat, rt: Rights, k | 0 <= k < 4 && AskOf(s, white)(i, rt).rights[k] ensures rt[k] {
      if i < 64 && s.board[i / 8][i % 8] != Empty && Own(white, s.board[i / 8][i % 8]) {
        GenFacts(s, rt, s.board[i / 8][i % 8], i / 8, i % 8);
      }
    }
  }

  /** A movable piece is a square the scans find moves at, whatever the rights. */
  lemma MovableAsked(s: State, white: bool, j: nat, rt: Rights)
    requires j < 64 && Movable(s.board, s.ep, white, j / 8, j % 8)
    ensures |AskOf(s, white)(j, rt).moves| > 0
  {
    GenFacts(s, rt, s.board[j / 8][j % 8], j / 8, j % 8);
  }

  /** With no right left, a square the scans find moves at holds a movable piece. */
  lemma AskedMovable(s: State, white: bool, j: nat, rt: Rights)
    requires NoRights(rt)
    ensures NoRights(AskOf(s, white)(j, rt).rights)
    ensures |AskOf(s, white)(j, rt).moves| > 0 ==> j < 64 && Movable(s.board, s.ep, white, j / 8, j % 8)
  {
    if j < 64 && s.board[j / 8][j % 8] != Empty && Own(white, s.board[j / 8][j % 8]) {
      GenFacts(s, rt, s.board[j / 8][j % 8], j / 8, j % 8);
    }
  }

  /**
   * make_move's scan finds a reply when some own piece has a move that
   * passes simulate_move; when no castling right is left, only then.
   */
  lemma ScanFromMeans(s: State, white: bool)
    ensures (exists x, y :: Movable(s.board, s.ep, white, x, y)) ==> ScanFrom(s, white).0
    ensures NoRights(s.rights) && ScanFrom(s, white).0 ==> exists x, y :: Movable(s.board, s.ep, white, x, y)
  {
    var ask := AskOf(s, white);
    var must := (j: nat) => j < 64 && Movable(s.board, s.ep, white, j / 8, j % 8);
    forall j, rt: Rights | must(j) ensures |ask(j, rt).moves| > 0 {
      MovableAsked(s, white, j, rt);
    }
    ScanWithFinds(ask, must, 0, false, s.rights);
    if exists x, y :: Movable(s.board, s.ep, white, x, y) {
      var x, y :| Movable(s.board, s.ep, white, x, y);
      var j := 8 * x + y;
      assert j / 8 == x && j % 8 == y;
      assert must(j);
    }
    if NoRights(s.rights) {
      forall j, rt: Rights | NoRights(rt) ensures NoRights(ask(j, rt).rights) && (|ask(j, rt).moves| > 0 ==> must(j)) {
        AskedMovable(s, white, j, rt);
      }
      ScanWithOnly(ask, must, 0, false, s.rights);
    }
  }

  /**
   * `ask` answers every square as the scans of side `white` on `s` ask
   * it.  The trigger keeps the move generation out of sight until a
   * square is asked of the game itself.
   */
  ghost predicate Fits(ask: Ask, s: State, white: bool)
  {
    forall i: nat, rt: Rights {:trigger GenAt(s, white, i, rt)} :: i < 64 ==> ask(i, rt) == GenAt(s, white, i, rt)
  }

  /** An ask that fits the game, and the whole-side scans run with it. */
  lemma FittingAsk(s: State, white: bool) returns (ask: Ask)
    ensures Fits(ask, s, white)
    ensures ScanFrom(s, white) == ScanWith(ask, 0, false, s.rights)
    ensures AllMoves(s, white) == AllWith(ask, 0, [], s.rights)
  {
    ask := AskOf(s, white);
  }

  /** What a fitting ask answers for square (r, c): an own piece's generated moves, nothing otherwise. */
  lemma FitsAt(ask: Ask, s: State, white: bool, r: int, c: int, rights: Rights)
    requires InBounds(r, c) && Fits(ask, s, white)
    ensures var p := s.board[r][c];
      ask(8 * r + c, rights) ==
        if p != Empty && Own(white, p) then ValidMoves(s.(rights := rights), p, r, c, true) else Gen([], rights)
  {
    var i := 8 * r + c;
    IndexOf(r, c);
    assert i / 8 == r && i % 8 == c;
    assert ask(i, rights) == GenAt(s, white, i, rights);
  }

  /** The scan only clears rights. */
  lemma ScanFromShrinks(s: State, white: bool)
    ensures forall k :: 0 <= k < 4 && ScanFrom(s, white).1[k] ==> s.rights[k]
  {
    AskOfShrinks(s, white);
    ScanWithShrinks(AskOf(s, white), 0, false, s.rights);
  }

  type Move = (Square, Square)

  /** The moves from one square, in the order of its targets. */
  function Pairs(from: Square, ts: seq<Square>): (ms: seq<Move>)
    ensures |ms| == |ts| && forall k :: 0 <= k < |ts| ==> ms[k] == (from, ts[k])
  {
    seq(|ts|, k requires 0 <= k < |ts| => (from, ts[k]))
  }

  /** A move of side `white`: from an own piece, onto a target that passed simulate_move or a king's castling square. */
  predicate Sound(s: State, white: bool, m: Move)
  {
    InBounds(m.0.0, m.0.1) && InBounds(m.1.0, m.1.1) && Own(white, s.board[m.0.0][m.0.1]) &&
    ((m.1 in Targets(s.board, s.ep, s.board[m.0.0][m.0.1], m.0.0, m.0.1) &&
      Safe(s.board, s.ep, m.0.0, m.0.1, m.1.0, m.1.1)) ||
     (IsKing(s.board[m.0.0][m.0.1]) && m.1.0 == (if white then 7 else 0) && (m.1.1 == 6 || m.1.1 == 2)))
  }

  lemma AskedSound(s: State, white: bool, j: nat, rt: Rights, k: int)
    requires j < 64 && 0 <= k < |AskOf(s, white)(j, rt).moves|
    ensures Sound(s, white, ((j / 8, j % 8), AskOf(s, white)(j, rt).moves[k]))
  {
    var p := s.board[j / 8][j % 8];
    ValidMovesChecked(s.(rights := rt), p, j / 8, j % 8, AskOf(s, white)(j, rt).moves[k]);
  }

  /** A target that passes simulate_move is offered by its square whatever the rights. */
  lemma KeptAsked(s: State, white: bool, j: nat, t: Square, rt: Rights)
    requires j < 64 && Own(white, s.board[j / 8][j % 8])
    requires t in Keep(s.board, s.ep, j / 8, j % 8, Targets(s.board, s.ep, s.board[j / 8][j % 8], j / 8, j % 8))
    ensures t in AskOf(s, white)(j, rt).moves
  {
    var p := s.board[j / 8][j % 8];
    assert p != Empty;
    GenFacts(s, rt, p, j / 8, j % 8);
    var kept := Keep(s.board, s.ep, j / 8, j % 8, Targets(s.board, s.ep, p, j / 8, j % 8));
    var k :| 0 <= k < |kept| && kept[k] == t;
    assert AskOf(s, white)(j, rt).moves[k] == t;
  }

  /**
   * get_all_moves lists only sound moves, and lists every target of
   * every own piece that passes simulate_move, whatever the castling
   * rights.
   */
  lemma AllMovesMeans(s: State, white: bool)
    ensures forall m :: m in AllMoves(s, white).0 ==> Sound(s, white, m)
    ensures forall x, y, t ::
      (InBounds(x, y) && Own(white, s.board[x][y]) &&
       t in Keep(s.board, s.ep, x, y, Targets(s.board, s.ep, s.board[x][y], x, y)))
      ==> ((x, y), t) in AllMoves(s, white).0
  {
    var ask := AskOf(s, white);
    var ok := (m: Move) => Sound(s, white, m);
    forall j, rt: Rights, k | j < 64 && 0 <= k < |ask(j, rt).moves| ensures ok(((j / 8, j % 8), ask(j, rt).moves[k])) {
      AskedSound(s, white, j, rt, k);
    }
    AllWithSound(ask, ok, 0, [], s.rights);
    forall x, y, t | InBounds(x, y) && Own(white, s.board[x][y]) &&
      t in Keep(s.board, s.ep, x, y, Targets(s.board, s.ep, s.board[x][y], x, y))
      ensures ((x, y), t) in AllMoves(s, white).0
    {
      var j := 8 * x + y;
      assert j / 8 == x && j % 8 == y;
      forall rt: Rights ensures t in ask(j, rt).moves {
        KeptAsked(s, white, j, t, rt);
      }
      AllWithComplete(ask, 0, [], s.rights, j, t);
    }
  }

  // ---------------------------------------------------------------------
  // make_move

  /** What make_move leaves: whether it accepted, the new state and the snapshot it pushed. */
  datatype Played = Played(ok: bool, state: State, saved: State)

  /**
   * make_move as written.  simulate_move runs first and its clearing of
   * the castling rights stays even when it refuses; an accepted move is
   * snapshotted, applied, hands the turn over, and the other side is
   * scanned for a reply; with none the outcome is recorded.
   */
  function Play(s: State, r1: int, c1: int, r2: int, c2: int): (pl: Played)
    requires InBounds(r1, c1) && InBounds(r2, c2)
  {
    var cleared := s.(rights := Clear(s.rights, s.board[r1][c1], r1, c1));
    if !Safe(s.board, s.ep, r1, c1, r2, c2) then Played(false, cleared, cleared)
    else
      var turn := if s.turn == White then Black else White;
      var m := MoveInternal(cleared, r1, c1, r2, c2).(turn := turn);
      var white := turn == White;
      var scan := ScanFrom(m, white);
      var t := m.(rights := scan.1);
      Played(true, if scan.0 then t else t.(winner := Some(StuckWinner(white, InCheck(t.board, t.ep, white)))), cleared)
  }

  /** The state an accepted move leaves, step by step. */
  lemma PlayAccepted(s: State, r1: int, c1: int, r2: int, c2: int)
    requires InBounds(r1, c1) && InBounds(r2, c2) && Safe(s.board, s.ep, r1, c1, r2, c2)
    ensures var cleared := s.(rights := Clear(s.rights, s.board[r1][c1], r1, c1));
      var turn := if s.turn == White then Black else White;
      var m := MoveInternal(cleared, r1, c1, r2, c2).(turn := turn);
      var white := turn == White;
      var scan := ScanFrom(m, white);
      var t := m.(rights := scan.1);
      Play(s, r1, c1, r2, c2) ==
        Played(true, if scan.0 then t else t.(winner := Some(StuckWinner(white, InCheck(t.board, t.ep, white)))), cleared)
  {
  }

  /**
   * A refused move changes only the castling rights; an accepted one
   * moves the piece, hands the turn over, and records an outcome exactly
   * when the scan finds no reply.
   */
  lemma PlayMeans(s: State, r1: int, c1: int, r2: int, c2: int)
    requires InBounds(r1, c1) && InBounds(r2, c2)
    ensures var pl := Play(s, r1, c1, r2, c2);
      pl.ok == Safe(s.board, s.ep, r1, c1, r2, c2) &&
      (!pl.ok ==> pl.state == s.(rights := Clear(s.rights, s.board[r1][c1], r1, c1))) &&
      (pl.ok ==> pl.state.board == MovedBoard(s.board, s.ep, r1, c1, r2, c2) && pl.state.turn != s.turn &&
                 pl.state.ep == NextEp(s.board[r1][c1], r1, c1, r2) &&
                 (pl.state.winner != s.winner ==> pl.state.winner.Some?) &&
                 forall i :: 0 <= i < 4 && pl.state.rights[i] ==> s.rights[i])
  {
    var pl := Play(s, r1, c1, r2, c2);
    if pl.ok {
      var cleared := s.(rights := Clear(s.rights, s.board[r1][c1], r1, c1));
      var turn := if s.turn == White then Black else White;
      var m := MoveInternal(cleared, r1, c1, r2, c2).(turn := turn);
      ScanFromShrinks(m, turn == White);
    }
  }

  // ---------------------------------------------------------------------
  // Material

  /** The AI's piece values: white positive, black the negation. */
  function PieceValue(p: int): int
  {
    if p == WPawn then 10 else if p == WKnight then 30 else if p == WBishop then 30
    else if p == WRook then 50 else if p == WQueen then 90 else if p == WKing then 900
    else if p == BPawn then -10 else if p == BKnight then -30 else if p == BBishop then -30
    else if p == BRook then -50 else if p == BQueen then -90 else if p == BKing then -900
    else 0
  }

  /** The piece of the same kind and the other colour. */
  function SwapColor(p: int): int
  {
    if IsWhite(p) then p + 6 else if IsBlack(p) then p - 6 else p
  }

  lemma PieceValueSigned(p: int)
    ensures PieceValue(SwapColor(p)) == -PieceValue(p)
    ensures IsWhite(p) ==> PieceValue(p) > 0
    ensures !IsWhite(p) && !IsBlack(p) ==> PieceValue(p) == 0
  {
  }

  function EvalFrom(b: Grid, n: nat): int
    requires n <= 64
  {
    if n == 0 then 0 else EvalFrom(b, n - 1) + PieceValue(b[(n - 1) / 8][(n - 1) % 8])
  }

  /** evaluate: the material sum over the board, positive when white is ahead. */
  function Evaluate(b: Grid): int
  {
    EvalFrom(b, 64)
  }

  function SwapColors(b: Grid): Grid
  {
    seq(8, i requires 0 <= i < 8 => seq(8, j requires 0 <= j < 8 => SwapColor(b[i][j])))
  }

  lemma {:induction false} EvalFromSwap(b: Grid, n: nat)
    requires n <= 64
    ensures EvalFrom(SwapColors(b), n) == -EvalFrom(b, n)
  {
    if n > 0 {
      EvalFromSwap(b, n - 1);
      PieceValueSigned(b[(n - 1) / 8][(n - 1) % 8]);
    }
  }

  /** Swapping the colours of every piece negates the evaluation. */
  lemma EvaluateSwap(b: Grid)
    ensures Evaluate(SwapColors(b)) == -Evaluate(b)
  {
    EvalFromSwap(b, 64);
  }

  /** No evaluation exceeds nine hundred per square. */
  lemma {:induction false} EvalFromBounded(b: Grid, n: nat)
    requires n <= 64
    ensures -900 * n <= EvalFrom(b, n) <= 900 * n
  {
    if n > 0 {
      EvalFromBounded(b, n - 1);
    }
  }

  /** Every evaluation lies within 57600 of zero, well inside the search's sentinels of 99999. */
  lemma EvaluateBounded(b: Grid)
    ensures -57600 <= Evaluate(b) <= 57600
  {
    EvalFromBounded(b, 64);
  }
}

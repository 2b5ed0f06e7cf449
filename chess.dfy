/**
 * The chess board object and its AI.  The board keeps its position in
 * fields that its methods update in place, exactly as the game does:
 * move generation tries each move on the board itself and puts it back.
 * Every method is proved against the functions of ChessRules, so the
 * facts proved there about those functions (the moves found, the
 * rights that generation clears, the recorded outcome) are facts about
 * the object.
 */
module Chess {
  import opened Options
  import opened ChessRules
  import Search

  /** The moves emitted so far for a list of tried targets: with the check test only those that pass simulate_move. */
  function Emitted(b: Grid, ep: EpTarget, r: int, c: int, ts: seq<Square>, check: bool): seq<Square>
  {
    if check then Keep(b, ep, r, c, ts) else ts
  }

  /** The castling rights after the trial moves of a list of tried targets. */
  function RightsAfter(rights: Rights, p: int, r: int, c: int, ts: seq<Square>, check: bool): Rights
  {
    if check && |ts| > 0 then Clear(rights, p, r, c) else rights
  }

  class Board {
    var board: Grid
    var turn: Color
    var rights: Rights
    var ep: EpTarget
    var winner: Option<Outcome>
    var history: seq<State>

    /** The position the fields hold; it is also what save_state pushes. */
    function Snapshot(): State
      reads this
    {
      State(board, turn, rights, ep, winner)
    }

    /** Everything but the castling rights, which move generation may clear. */
    function Fixed(): (Grid, EpTarget, Color, Option<Outcome>, seq<State>)
      reads this
    {
      (board, ep, turn, winner, history)
    }

    constructor ()
      ensures Snapshot() == InitialState() && history == []
    {
      board := InitialBoard();
      turn := White;
      rights := [true, true, true, true];
      ep := None;
      winner := None;
      history := [];
    }

    /** reset: the starting position with an empty history. */
    method Reset()
      modifies this
      ensures Snapshot() == InitialState() && history == []
    {
      board := InitialBoard();
      turn := White;
      rights := [true, true, true, true];
      ep := None;
      winner := None;
      history := [];
    }

    method SaveState()
      modifies this
      ensures Snapshot() == old(Snapshot()) && history == old(history) + [old(Snapshot())]
    {
      history := history + [Snapshot()];
    }

    method RestoreState(st: State)
      modifies this
      ensures Snapshot() == st && history == old(history)
    {
      board, turn, rights, ep, winner := st.board, st.turn, st.rights, st.ep, st.winner;
    }

    /**
     * undo: with two or more snapshots both the AI's and the player's
     * moves are taken back, with one only that one; with none nothing
     * changes and false is returned.
     */
    method Undo() returns (ok: bool)
      modifies this
      ensures ok <==> |old(history)| > 0
      ensures |old(history)| >= 2 ==>
        Snapshot() == old(history)[|old(history)| - 2] && history == old(history)[..|old(history)| - 2]
      ensures |old(history)| == 1 ==> Snapshot() == old(history)[0] && history == []
      ensures |old(history)| == 0 ==> Snapshot() == old(Snapshot()) && history == old(history)
    {
      if |history| >= 2 {
        history := history[..|history| - 1];
        var prev := history[|history| - 1];
        history := history[..|history| - 1];
        RestoreState(prev);
        return true;
      } else if |history| == 1 {
        var prev := history[0];
        history := [];
        RestoreState(prev);
        return true;
      }
      return false;
    }

    /** move_piece_internal: moves the piece with no legality test, in the order the game does it. */
    method MovePieceInternal(r1: int, c1: int, r2: int, c2: int)
      requires InBounds(r1, c1) && InBounds(r2, c2)
      modifies this
      ensures Snapshot() == MoveInternal(old(Snapshot()), r1, c1, r2, c2) && history == old(history)
    {
      ghost var b0, ep0, rights0 := board, ep, rights;
      var p := board[r1][c1];
      board := Set(board, r2, c2, p);
      board := Set(board, r1, c1, Empty);
      if IsPawn(p) && ep == Some((r2, c2)) {
        board := Set(board, r1, c2, Empty);
      }
      assert board == Displace(b0, ep0, r1, c1, r2, c2);
      ep := None;
      if IsPawn(p) && Abs(r2 - r1) == 2 {
        ep := Some(((r1 + r2) / 2, c1));
      }
      assert ep == NextEp(p, r1, c1, r2);
      if p == WPawn && r2 == 0 {
        board := Set(board, r2, c2, WQueen);
      }
      if p == BPawn && r2 == 7 {
        board := Set(board, r2, c2, BQueen);
      }
      assert board == Promote(Displace(b0, ep0, r1, c1, r2, c2), p, r2, c2);
      KingMoves(p, c1, c2);
      RookMoves(p, r1, c1);
      assert board == MovedBoard(b0, ep0, r1, c1, r2, c2);
      assert rights == Clear(rights0, p, r1, c1);
    }

    /** The king's part of move_piece_internal: both rights of its colour go, and a two-file move brings the rook across. */
    method KingMoves(p: int, c1: int, c2: int)
      modifies this
      ensures board == CastleRook(old(board), p, c1, c2)
      ensures rights == (if p == WKing then old(rights)[0 := false][1 := false]
                         else if p == BKing then old(rights)[2 := false][3 := false] else old(rights))
      ensures ep == old(ep) && turn == old(turn) && winner == old(winner) && history == old(history)
    {
      if p == WKing {
        rights := rights[0 := false][1 := false];
        if c2 - c1 == 2 {
          board := Set(Set(board, 7, 5, board[7][7]), 7, 7, Empty);
        } else if c2 - c1 == -2 {
          board := Set(Set(board, 7, 3, board[7][0]), 7, 0, Empty);
        }
      }
      if p == BKing {
        rights := rights[2 := false][3 := false];
        if c2 - c1 == 2 {
          board := Set(Set(board, 0, 5, board[0][7]), 0, 7, Empty);
        } else if c2 - c1 == -2 {
          board := Set(Set(board, 0, 3, board[0][0]), 0, 0, Empty);
        }
      }
    }

    /** The rook's part of move_piece_internal: a rook leaving its corner gives up that side's right. */
    method RookMoves(p: int, r1: int, c1: int)
      modifies this
      ensures rights == (if p == WKing || p == BKing then old(rights) else Clear(old(rights), p, r1, c1))
      ensures board == old(board) && ep == old(ep) && turn == old(turn) && winner == old(winner) && history == old(history)
    {
      if p == WRook {
        if r1 == 7 && c1 == 0 {
          rights := rights[1 := false];
        }
        if r1 == 7 && c1 == 7 {
          rights := rights[0 := false];
        }
      }
      if p == BRook {
        if r1 == 0 && c1 == 0 {
          rights := rights[3 := false];
        }
        if r1 == 0 && c1 == 7 {
          rights := rights[2 := false];
        }
      }
    }

    /**
     * simulate_move: plays the move, asks whether the mover's king is
     * attacked, and puts back the board and the en passant target, but
     * not the castling rights the move cleared.
     */
    method SimulateMove(r1: int, c1: int, r2: int, c2: int) returns (safe: bool)
      requires InBounds(r1, c1) && InBounds(r2, c2)
      modifies this
      ensures safe == Safe(old(board), old(ep), r1, c1, r2, c2)
      ensures Fixed() == old(Fixed())
      ensures rights == Clear(old(rights), old(board)[r1][c1], r1, c1)
      decreases 0, 11
    {
      var saveBoard := board;
      var saveEp := ep;
      MovePieceInternal(r1, c1, r2, c2);
      var check := IsInCheck(IsWhite(saveBoard[r1][c1]));
      safe := !check;
      board := saveBoard;
      ep := saveEp;
    }

    /** find_king: the first square, row by row, holding the king of that colour. */
    method FindKing(white: bool) returns (kp: Option<Square>)
      ensures kp == ChessRules.FindKing(board, white)
    {
      var king := if white then WKing else BKing;
      for r := 0 to 8
        invariant FindFrom(board, king, 0) == FindFrom(board, king, 8 * r)
      {
        for c := 0 to 8
          invariant FindFrom(board, king, 0) == FindFrom(board, king, 8 * r + c)
        {
          FindFromStep(board, king, r, c);
          if board[r][c] == king {
            return Some((r, c));
          }
        }
      }
      return None;
    }

    /** is_in_check: true without a king, otherwise whether an enemy piece has the king's square among its targets. */
    method IsInCheck(white: bool) returns (check: bool)
      modifies this
      ensures check == InCheck(old(board), old(ep), white)
      ensures Snapshot() == old(Snapshot()) && history == old(history)
      decreases 0, 10
    {
      var kp := FindKing(white);
      if kp.None? {
        return true;
      }
      for r := 0 to 8
        invariant Snapshot() == old(Snapshot()) && history == old(history)
        invariant !AttackedBy(board, ep, white, kp.value, 8 * r)
      {
        check := AttackRow(white, kp.value, r);
        if check {
          return;
        }
      }
      return false;
    }

    /** One row of is_in_check's scan: true as soon as a piece of the row attacks the king's square. */
    method AttackRow(white: bool, kp: Square, r: int) returns (hit: bool)
      requires 0 <= r < 8 && !AttackedBy(board, ep, white, kp, 8 * r)
      modifies this
      ensures Snapshot() == old(Snapshot()) && history == old(history)
      ensures hit ==> AttackedBy(board, ep, white, kp, 64)
      ensures !hit ==> !AttackedBy(board, ep, white, kp, 8 * r + 8)
      decreases 0, 9
    {
      for c := 0 to 8
        invariant Snapshot() == old(Snapshot()) && history == old(history)
        invariant !AttackedBy(board, ep, white, kp, 8 * r + c)
      {
        AttackedByStep(board, ep, white, kp, r, c);
        hit := AttackSquare(white, kp, r, c);
        if hit {
          AttackedAt(board, ep, white, kp, r, c);
          return;
        }
      }
      hit := false;
    }

    /** Whether the piece on (r, c) is an enemy whose unchecked moves reach the king's square. */
    method AttackSquare(white: bool, kp: Square, r: int, c: int) returns (hit: bool)
      requires InBounds(r, c)
      modifies this
      ensures Snapshot() == old(Snapshot()) && history == old(history)
      ensures hit == Attacks(board, ep, white, kp, r, c)
      decreases 0, 8
    {
      hit := false;
      var p := board[r][c];
      if p != Empty && Enemy(white, p) {
        ghost var s0 := Snapshot();
        var ms := GetValidMoves(p, r, c, false);
        UncheckedMoves(s0, p, r, c);
        hit := kp in ms;
      }
    }

    /**
     * The last step of add and of the pawn moves: with the check test
     * the target is kept only when simulate_move accepts it.
     */
    method Offer(r: int, c: int, t: Square, check: bool, ghost r0: Rights, ghost ts: seq<Square>, moves: seq<Square>)
      returns (moves': seq<Square>)
      requires InBounds(r, c) && InBounds(t.0, t.1)
      requires moves == Emitted(board, ep, r, c, ts, check) && rights == RightsAfter(r0, board[r][c], r, c, ts, check)
      modifies this
      ensures Fixed() == old(Fixed())
      ensures moves' == Emitted(board, ep, r, c, ts + [t], check)
      ensures rights == RightsAfter(r0, board[r][c], r, c, ts + [t], check)
      decreases if check then 1 else 0, 2
    {
      if check {
        KeepSnoc(board, ep, r, c, ts, t);
        ClearIdempotent(r0, board[r][c], r, c);
        var safe := SimulateMove(r, c, t.0, t.1);
        moves' := if safe then moves + [t] else moves;
      } else {
        moves' := moves + [t];
      }
    }

    /**
     * The squares add keeps for a knight or king: a target off the board
     * or holding an own piece is skipped, any other is kept, in offset
     * order.
     */
    method StepLine(r: int, c: int, white: bool, offs: seq<Square>) returns (line: seq<Square>)
      ensures line == StepTargets(board, white, r, c, offs, |offs|)
    {
      line := [];
      for k := 0 to |offs|
        invariant line == StepTargets(board, white, r, c, offs, k)
      {
        var t := (r + offs[k].0, c + offs[k].1);
        var p := GetPiece(board, t.0, t.1);
        if p.Some? && (p.value == Empty || !Own(white, p.value)) {
          line := line + [t];
        }
      }
    }

    /** The moves of a knight or of a king's steps: each offset's square, tried in turn. */
    method StepMoves(r: int, c: int, white: bool, offs: seq<Square>, check: bool) returns (moves: seq<Square>)
      requires InBounds(r, c)
      modifies this
      ensures Fixed() == old(Fixed())
      ensures var ts := StepTargets(old(board), white, r, c, offs, |offs|);
        moves == Emitted(old(board), old(ep), r, c, ts, check) &&
        rights == RightsAfter(old(rights), old(board)[r][c], r, c, ts, check)
      decreases if check then 1 else 0, 4
    {
      var line := StepLine(r, c, white, offs);
      StepTargetsFacts(board, white, r, c, offs, |offs|);
      ghost var ts;
      moves, ts := OfferAll(r, c, line, check, rights, [], []);
      assert ts == line;
    }

    /**
     * The moves along one direction: add at each step until it says stop.
     * The squares are found first and tried afterwards, which gives the
     * same moves and rights as trying each as it is found, because a trial
     * move puts the board back.
     */
    method RayMoves(r: int, c: int, white: bool, dr: int, dc: int, check: bool, ghost r0: Rights, ghost ts: seq<Square>,
                    moves: seq<Square>)
      returns (moves': seq<Square>, ghost ts': seq<Square>)
      requires InBounds(r, c)
      requires moves == Emitted(board, ep, r, c, ts, check) && rights == RightsAfter(r0, board[r][c], r, c, ts, check)
      modifies this
      ensures Fixed() == old(Fixed())
      ensures ts' == ts + Ray(board, white, r, c, dr, dc, |board| - 1)
      ensures moves' == Emitted(board, ep, r, c, ts', check) && rights == RightsAfter(r0, board[r][c], r, c, ts', check)
      decreases if check then 1 else 0, 4
    {
      var line := RayTargets(r, c, white, dr, dc);
      RayFacts(board, white, r, c, dr, dc, |board| - 1);
      moves', ts' := OfferAll(r, c, line, check, r0, ts, moves);
    }

    /** The squares a slider reaches along one direction: empty ones, then a first enemy, stopping at the edge. */
    method RayTargets(r: int, c: int, white: bool, dr: int, dc: int) returns (line: seq<Square>)
      ensures line == Ray(board, white, r, c, dr, dc, |board| - 1)
    {
      line := [];
      var i := 1;
      while i < 8
        invariant 1 <= i <= 8
        invariant Open(board, r, c, dr, dc, i - 1) && line == Ray(board, white, r, c, dr, dc, i - 1)
      {
        var t := Along(r, c, dr, dc, i);
        var p := GetPiece(board, t.0, t.1);
        if p == Some(Empty) {
          line := line + [t];
        } else {
          if Admits(board, white, t) {
            line := line + [t];
          }
          RayClosed(board, white, r, c, dr, dc, i, |board| - 1);
          return;
        }
        i := i + 1;
      }
    }

    /** Tries each square of `line` in turn, as add does for a square that is open to the piece. */
    method OfferAll(r: int, c: int, line: seq<Square>, check: bool, ghost r0: Rights, ghost ts: seq<Square>,
                    moves: seq<Square>)
      returns (moves': seq<Square>, ghost ts': seq<Square>)
      requires InBounds(r, c) && forall t :: t in line ==> InBounds(t.0, t.1)
      requires moves == Emitted(board, ep, r, c, ts, check) && rights == RightsAfter(r0, board[r][c], r, c, ts, check)
      modifies this
      ensures Fixed() == old(Fixed())
      ensures ts' == ts + line
      ensures moves' == Emitted(board, ep, r, c, ts', check) && rights == RightsAfter(r0, board[r][c], r, c, ts', check)
      decreases if check then 1 else 0, 3
    {
      moves', ts' := moves, ts;
      for k := 0 to |line|
        invariant Fixed() == old(Fixed())
        invariant ts' == ts + line[..k]
        invariant moves' == Emitted(board, ep, r, c, ts', check) && rights == RightsAfter(r0, board[r][c], r, c, ts', check)
      {
        moves' := Offer(r, c, line[k], check, r0, ts', moves');
        ts' := ts' + [line[k]];
        assert line[..k + 1] == line[..k] + [line[k]];
      }
      assert line[..|line|] == line;
    }

    /** The moves of a bishop, rook or queen: each direction in turn. */
    method SlideMoves(r: int, c: int, white: bool, dirs: seq<Square>, check: bool) returns (moves: seq<Square>)
      requires InBounds(r, c)
      modifies this
      ensures Fixed() == old(Fixed())
      ensures var ts := SlideTargets(old(board), white, r, c, dirs, |dirs|);
        moves == Emitted(old(board), old(ep), r, c, ts, check) &&
        rights == RightsAfter(old(rights), old(board)[r][c], r, c, ts, check)
      decreases if check then 1 else 0, 5
    {
      ghost var r0 := rights;
      ghost var ts: seq<Square> := [];
      moves := [];
      for k := 0 to |dirs|
        invariant Fixed() == old(Fixed())
        invariant ts == SlideTargets(board, white, r, c, dirs, k)
        invariant moves == Emitted(board, ep, r, c, ts, check) && rights == RightsAfter(r0, board[r][c], r, c, ts, check)
      {
        moves, ts := RayMoves(r, c, white, dirs[k].0, dirs[k].1, check, r0, ts, moves);
      }
    }

    /** The pawn's targets in the order they are tried: the steps forward, then the left and the right diagonal. */
    method PawnLine(r: int, c: int, white: bool) returns (line: seq<Square>)
      ensures line == PawnTargets(board, ep, white, r, c)
    {
      var d := if white then -1 else 1;
      var start := if white then 6 else 1;
      line := [];
      if GetPiece(board, r + d, c) == Some(Empty) {
        line := [(r + d, c)];
        if r == start && GetPiece(board, r + d * 2, c) == Some(Empty) {
          line := line + [(r + d * 2, c)];
        }
      }
      ghost var ahead := line;
      var dc := -1;
      while dc <= 1
        invariant dc == -1 || dc == 1 || dc == 3
        invariant dc == -1 ==> line == ahead
        invariant dc == 1 ==> line == ahead + PawnSide(board, ep, white, r, c, d, -1)
        invariant dc == 3 ==> line == ahead + PawnSide(board, ep, white, r, c, d, -1) + PawnSide(board, ep, white, r, c, d, 1)
        decreases 3 - dc
      {
        var t := GetPiece(board, r + d, c + dc);
        var side: seq<Square> := [];
        if t.Some? && t.value != Empty && Enemy(white, t.value) {
          side := [(r + d, c + dc)];
        }
        if ep == Some((r + d, c + dc)) {
          side := side + [(r + d, c + dc)];
        }
        assert side == PawnSide(board, ep, white, r, c, d, dc);
        line := line + side;
        dc := dc + 2;
      }
      assert ahead == PawnAhead(board, white, r, c);
    }

    /** The moves of a pawn: its steps forward, then the diagonal to the left and the one to the right. */
    method PawnMoves(r: int, c: int, white: bool, check: bool) returns (moves: seq<Square>)
      requires InBounds(r, c)
      modifies this
      ensures Fixed() == old(Fixed())
      ensures var ts := PawnTargets(old(board), old(ep), white, r, c);
        moves == Emitted(old(board), old(ep), r, c, ts, check) &&
        rights == RightsAfter(old(rights), old(board)[r][c], r, c, ts, check)
      decreases if check then 1 else 0, 5
    {
      var line := PawnLine(r, c, white);
      PawnTargetsOnBoard(board, ep, white, r, c);
      ghost var ts;
      moves, ts := OfferAll(r, c, line, check, rights, [], []);
      assert ts == line;
    }

    /**
     * get_valid_moves: the targets of the piece, each tried with
     * simulate_move when `checkCheck` holds; a king out of check then
     * adds each castling square whose right is still held.
     */
    method GetValidMoves(piece: int, r: int, c: int, checkCheck: bool) returns (moves: seq<Square>)
      requires InBounds(r, c)
      modifies this
      ensures Fixed() == old(Fixed())
      ensures moves == ValidMoves(old(Snapshot()), piece, r, c, checkCheck).moves
      ensures rights == ValidMoves(old(Snapshot()), piece, r, c, checkCheck).rights
      decreases if checkCheck then 1 else 0, 6
    {
      ghost var s0 := Snapshot();
      var white := IsWhite(piece);
      TargetsOfKind(board, ep, piece, r, c);
      ValidMovesShape(s0, piece, r, c, checkCheck);
      if IsPawn(piece) {
        moves := PawnMoves(r, c, white, checkCheck);
      } else if IsKnight(piece) {
        moves := StepMoves(r, c, white, KnightOffsets(), checkCheck);
      } else if IsSlider(piece) {
        moves := SlideMoves(r, c, white, Dirs(piece), checkCheck);
      } else if IsKing(piece) {
        KingTargets(board, ep, piece, r, c);
        moves := StepMoves(r, c, white, KingOffsets(), checkCheck);
        if checkCheck {
          moves := CastleMoves(white, moves);
        }
      } else {
        moves := [];
      }
    }

    /** The castling squares a king out of check adds, each when its right holds and the squares between are empty. */
    method CastleMoves(white: bool, moves: seq<Square>) returns (moves': seq<Square>)
      modifies this
      ensures Snapshot() == old(Snapshot()) && history == old(history)
      ensures moves' == moves + CastleTargets(board, ep, rights, white)
      decreases 1, 0
    {
      var inCheck := IsInCheck(white);
      moves' := moves;
      if !inCheck {
        var row := if white then 7 else 0;
        var idx := if white then 0 else 2;
        if rights[idx] && GetPiece(board, row, 5) == Some(Empty) && GetPiece(board, row, 6) == Some(Empty) {
          moves' := moves' + [(row, 6)];
        }
        if rights[idx + 1] && GetPiece(board, row, 1) == Some(Empty) && GetPiece(board, row, 2) == Some(Empty) &&
           GetPiece(board, row, 3) == Some(Empty) {
          moves' := moves' + [(row, 2)];
        }
      }
    }

    /**
     * One square of make_move's scan, at row-major index `i`: an own
     * piece with a generated move sets the flag and ends the scan of its
     * row.  `next` is the index the scan goes on from.
     */
    method AskSquare(ghost s0: State, ghost ask: Ask, white: bool, i: nat, found: bool) returns (found': bool, next: nat)
      requires i < 64 && Snapshot() == s0.(rights := rights) && Fits(ask, s0, white)
      modifies this
      ensures Fixed() == old(Fixed())
      ensures i < next <= 64
      ensures ScanWith(ask, i, found, old(rights)) == ScanWith(ask, next, found', rights)
    {
      var r, c := i / 8, i % 8;
      assert 8 * r + c == i;
      FitsAt(ask, s0, white, r, c, rights);
      found', next := found, i + 1;
      var p := board[r][c];
      if p != Empty && Own(white, p) {
        var ms := GetValidMoves(p, r, c, true);
        if |ms| > 0 {
          found', next := true, NextRow(i);
        }
      }
    }

    /**
     * The scan make_move runs for the side to move next, with `ask`
     * standing for the generation of each square (FittingAsk gives one):
     * row by row, the first own piece with a generated move ends the scan
     * of its row.  The two nested loops run as one loop over the
     * row-major index, a hit jumping to the next row as the inner break
     * does.
     */
    method HasMoves(ghost ask: Ask, white: bool) returns (found: bool)
      requires Fits(ask, Snapshot(), white)
      modifies this
      ensures Fixed() == old(Fixed())
      ensures (found, rights) == ScanWith(ask, 0, false, old(rights))
    {
      ghost var s0 := Snapshot();
      ghost var goal := ScanWith(ask, 0, false, rights);
      found := false;
      var i: nat := 0;
      while i < 64
        invariant i <= 64
        invariant Fixed() == old(Fixed())
        invariant goal == ScanWith(ask, i, found, rights)
        decreases 64 - i
      {
        found, i := AskSquare(s0, ask, white, i, found);
      }
    }

    /**
     * make_move: a move that simulate_move refuses changes nothing but the
     * castling rights the trial cleared; an accepted one is snapshotted,
     * played, hands the turn over, and when the other side has no reply
     * records the outcome.
     */
    method MakeMove(r1: int, c1: int, r2: int, c2: int) returns (ok: bool)
      requires InBounds(r1, c1) && InBounds(r2, c2)
      modifies this
      ensures var pl := Play(old(Snapshot()), r1, c1, r2, c2);
        ok == pl.ok && Snapshot() == pl.state && history == (if ok then old(history) + [pl.saved] else old(history))
    {
      ghost var s0 := Snapshot();
      var safe := SimulateMove(r1, c1, r2, c2);
      ghost var cleared := Snapshot();
      assert cleared == s0.(rights := Clear(s0.rights, s0.board[r1][c1], r1, c1));
      if !safe {
        return false;
      }
      SaveState();
      ClearIdempotent(s0.rights, s0.board[r1][c1], r1, c1);
      MovePieceInternal(r1, c1, r2, c2);
      assert Snapshot() == MoveInternal(cleared, r1, c1, r2, c2);
      turn := if turn == White then Black else White;
      ghost var m := Snapshot();
      assert m == MoveInternal(cleared, r1, c1, r2, c2).(turn := m.turn);
      RecordOutcome();
      PlayAccepted(s0, r1, c1, r2, c2);
      return true;
    }

    /** The tail of make_move: scan the side to move for a reply, and without one record the outcome. */
    method RecordOutcome()
      modifies this
      ensures history == old(history)
      ensures var white := old(turn) == White; var scan := ScanFrom(old(Snapshot()), white);
        var t := old(Snapshot()).(rights := scan.1);
        Snapshot() == if scan.0 then t else t.(winner := Some(StuckWinner(white, InCheck(t.board, t.ep, white))))
    {
      var white := turn == White;
      ghost var ask := FittingAsk(Snapshot(), white);
      var hasMoves := HasMoves(ask, white);
      if !hasMoves {
        RecordStuck(white);
      }
    }

    /**
     * The outcome make_move records when side `white`, to move, has no
     * reply: a loss when in check, otherwise a draw.
     */
    method RecordStuck(white: bool)
      modifies this
      ensures Snapshot() == old(Snapshot()).(winner := Some(StuckWinner(white, InCheck(board, ep, white))))
      ensures history == old(history)
    {
      var inCheck := IsInCheck(white);
      winner := Some(if inCheck then BlackWins else if white then Draw else WhiteWins);
      if !white {
        var inCheckBlack := IsInCheck(false);
        if !inCheckBlack {
          winner := Some(Draw);
        }
      }
    }

    /** One square of get_all_moves, at row-major index `i`: an own piece's generated moves are appended. */
    method CollectAt(ghost s0: State, ghost ask: Ask, white: bool, i: nat, moves: seq<Move>) returns (moves': seq<Move>)
      requires i < 64 && Snapshot() == s0.(rights := rights) && Fits(ask, s0, white)
      modifies this
      ensures Fixed() == old(Fixed())
      ensures AllWith(ask, i, moves, old(rights)) == AllWith(ask, i + 1, moves', rights)
    {
      var r, c := i / 8, i % 8;
      assert 8 * r + c == i;
      FitsAt(ask, s0, white, r, c, rights);
      assert moves + Pairs((r, c), []) == moves;
      moves' := moves;
      var p := board[r][c];
      if p != Empty && Own(white, p) {
        var ms := GetValidMoves(p, r, c, true);
        moves' := AppendFrom(moves, (r, c), ms);
      }
    }

    /**
     * get_all_moves, with `ask` standing for the generation of each
     * square: every generated move of every own piece, row by row, as one
     * loop over the row-major index.
     */
    method GetAllMoves(ghost ask: Ask, white: bool) returns (moves: seq<Move>)
      requires Fits(ask, Snapshot(), white)
      modifies this
      ensures Fixed() == old(Fixed())
      ensures (moves, rights) == AllWith(ask, 0, [], old(rights))
    {
      ghost var s0 := Snapshot();
      ghost var goal := AllWith(ask, 0, [], rights);
      moves := [];
      var i: nat := 0;
      while i < 64
        invariant i <= 64
        invariant Fixed() == old(Fixed())
        invariant goal == AllWith(ask, i, moves, rights)
        decreases 64 - i
      {
        moves := CollectAt(s0, ask, white, i, moves);
        i := i + 1;
      }
    }
  }

  /** Appends one move per target, each from the same square, in the order of the targets. */
  method AppendFrom(moves: seq<Move>, from: Square, ts: seq<Square>) returns (moves': seq<Move>)
    ensures |moves'| == |moves| + |ts| && moves'[..|moves|] == moves
    ensures forall k :: 0 <= k < |ts| ==> moves'[|moves| + k] == (from, ts[k])
    ensures moves' == moves + Pairs(from, ts)
  {
    moves' := moves;
    for k := 0 to |ts|
      invariant moves' == moves + Pairs(from, ts)[..k]
    {
      moves' := moves' + [(from, ts[k])];
    }
    assert Pairs(from, ts)[..|ts|] == Pairs(from, ts);
  }

  // ---------------------------------------------------------------------
  // The AI

  /**
   * The child a search explores: the copy of the position after the
   * move generation of the side to move (which clears castling rights on
   * the position it runs on), then make_move on that copy.
   */
  function Child(s: State, m: Move, maxing: bool): State
  {
    var t := s.(rights := AllMoves(s, maxing).1);
    if InBounds(m.0.0, m.0.1) && InBounds(m.1.0, m.1.1) then Play(t, m.0.0, m.0.1, m.1.0, m.1.1).state else t
  }

  /**
   * The chess game tree: white maximizes, a decided position or a side
   * without moves is scored by material, and the loops start from -99999
   * and 99999.
   */
  function G(): Search.Game<State, Move>
  {
    Search.Game((s: State, maxing: bool) => AllMoves(s, maxing).0,
                (s: State, m: Move, maxing: bool) => Child(s, m, maxing),
                (s: State) => s.winner.Some?,
                (s: State) => Evaluate(s.board),
                Search.StaticEval, Search.Fin(-99999), Search.Fin(99999))
  }

  /** A side with no move, mated or not, is worth its material: the search does not score a mate. */
  lemma MateScoredAsMaterial(s: State, depth: nat, maxing: bool)
    requires s.winner.None? && AllMoves(s, maxing).0 == []
    ensures Search.Minimax(G(), s, depth, maxing) == Search.Fin(Evaluate(s.board))
  {
  }

  /** The AI's minimax: alpha-beta over copies, exact whenever the true value lies inside the window. */
  method Minimax(board: State, depth: nat, alpha: int, beta: int, isMax: bool) returns (value: Search.Value)
    requires -99999 <= alpha < beta <= 99999
    ensures Search.FailSoft(value, Search.Minimax(G(), board, depth, isMax), Search.Fin(alpha), Search.Fin(beta))
    ensures Search.InWindow(Search.Fin(alpha), Search.Minimax(G(), board, depth, isMax), Search.Fin(beta)) ==>
      value == Search.Minimax(G(), board, depth, isMax)
  {
    var move;
    value, move := Search.AlphaBeta(G(), board, depth, Search.Fin(alpha), Search.Fin(beta), isMax, 0);
    ghost var m := Search.Minimax(G(), board, depth, isMax);
    if Search.InWindow(Search.Fin(alpha), m, Search.Fin(beta)) {
      Search.FailSoftExact(value, m, Search.Fin(alpha), Search.Fin(beta));
    }
  }

  /** Every search value is finite: leaves are material and the loops start from finite bounds. */
  lemma MinimaxFinite(s: State, depth: nat, maxing: bool)
    ensures Search.Minimax(G(), s, depth, maxing).Fin?
  {
    Search.MinimaxFin(G(), s, depth, maxing);
  }

  /** With every child inside the root window, the fold from 99999 ends below it. */
  lemma WindowBeatsStart(vals: seq<Search.Value>)
    requires |vals| > 0 && Search.AllInWindow(Search.Fin(-10000), vals, Search.Fin(10000))
    ensures Search.Beats(false, Search.Fin(99999), Search.ExtremeOf(vals, false, Search.Fin(99999)))
  {
    Search.ExtremeOfBounds(vals, false, Search.Fin(99999));
  }

  /**
   * get_best_move for black: generates black's moves on the live board
   * (clearing rights there as a side effect), returns None without a
   * move, and otherwise the first move whose value, searched with the
   * window (-10000, 10000), is strictly below every earlier one; when
   * every child value lies inside that window this is the first move of
   * minimal minimax value.  `pick` stands for the random first guess.
   */
  method GetBestMove(board: Board, depth: nat, pick: nat) returns (best: Option<Move>)
    requires depth > 0
    modifies board
    ensures board.Fixed() == old(board.Fixed())
    ensures board.rights == AllMoves(old(board.Snapshot()), false).1
    ensures var ms := AllMoves(old(board.Snapshot()), false).0;
      (best.None? <==> ms == []) &&
      (best.Some? ==> best.value in ms) &&
      (best.Some? && Search.AllInWindow(Search.Fin(-10000), Search.ChildValues(G(), old(board.Snapshot()), depth, false), Search.Fin(10000)) ==>
        best.value == ms[Search.Choose(Search.ChildValues(G(), old(board.Snapshot()), depth, false), false, Search.FirstStrict)])
  {
    var s := board.Snapshot();
    ghost var ask := FittingAsk(s, false);
    var moves := board.GetAllMoves(ask, false);
    if moves == [] {
      return None;
    }
    var k := Search.RootChoice(G(), s, depth, Search.Fin(-10000), Search.Fin(10000), false, Search.Fin(99999), pick);
    ghost var vals := Search.ChildValues(G(), s, depth, false);
    if Search.AllInWindow(Search.Fin(-10000), vals, Search.Fin(10000)) {
      WindowBeatsStart(vals);
    }
    best := Some(moves[k.value]);
  }
}

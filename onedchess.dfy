/**
 * One-dimensional chess on eight squares: each side has a king, a rook
 * and a knight; a knight jumps two squares, a rook slides, a king steps
 * one square; taking the enemy king wins.  Black is played by an AI that
 * scores each of its moves and picks at random among the best.
 */
module OneDChess {
  import opened Options
  import opened Seqs
  import Search

  const Cols := 8

  // Piece codes, as the board stores them.
  const EmptySquare := 0
  const WKing := 1
  const WRook := 2
  const WKnight := 3
  const BKing := 4
  const BRook := 5
  const BKnight := 6

  type Board = b: seq<int> | |b| == 8 witness [0, 0, 0, 0, 0, 0, 0, 0]

  datatype Side = White | Black
  datatype Outcome = BlackWins | WhiteWins

  /** K R N . . n r k */
  function InitialBoard(): Board { [WKing, WRook, WKnight, EmptySquare, EmptySquare, BKnight, BRook, BKing] }

  /** The side a piece code belongs to; None for the empty square and any other code. */
  function Owner(piece: int): (o: Option<Side>)
    ensures o == Some(White) <==> 1 <= piece <= 3
    ensures o == Some(Black) <==> 4 <= piece <= 6
    ensures o == None <==> !(1 <= piece <= 6)
  {
    if piece in [WKing, WRook, WKnight] then Some(White)
    else if piece in [BKing, BRook, BKnight] then Some(Black)
    else None
  }

  // ---------------------------------------------------------------------
  // Move generation

  /** A piece of `owner` may land on `t`: an empty square or one held by someone else. */
  predicate Open(b: Board, t: int, owner: Option<Side>)
    requires 0 <= t < Cols
  {
    b[t] == EmptySquare || Owner(b[t]) != owner
  }

  /** The jump `dist` squares away in each direction of `dirs`, where it lands on the board and is open. */
  function Hops(b: Board, idx: int, owner: Option<Side>, dirs: seq<int>, dist: int): seq<int>
  {
    if dirs == [] then []
    else
      var t := idx + dirs[|dirs| - 1] * dist;
      Hops(b, idx, owner, dirs[..|dirs| - 1], dist) + (if 0 <= t < Cols && Open(b, t, owner) then [t] else [])
  }

  /** How far `t` lies from `idx` in direction `d` (negative when it lies the other way). */
  function Dist(idx: int, d: int, t: int): int { if d == 1 then t - idx else idx - t }

  /** The square `k` steps from `idx` in direction `d`. */
  function Sq(idx: int, d: int, k: int): int { if d == 1 then idx + k else idx - k }

  /** The squares a rook reaches going `d` (-1 or 1) from `idx`, starting `i` squares away. */
  function Slide(b: Board, idx: int, owner: Option<Side>, d: int, i: int): seq<int>
    requires i >= 1
    decreases Cols - i
  {
    if i >= Cols then []
    else
      var t := Sq(idx, d, i);
      if !(0 <= t < Cols) then []
      else if b[t] == EmptySquare then [t] + Slide(b, idx, owner, d, i + 1)
      else if Owner(b[t]) != owner then [t]
      else []
  }

  /** The rook's squares in each direction of `dirs`, in order. */
  function Slides(b: Board, idx: int, owner: Option<Side>, dirs: seq<int>): seq<int>
  {
    if dirs == [] then []
    else Slides(b, idx, owner, dirs[..|dirs| - 1]) + Slide(b, idx, owner, dirs[|dirs| - 1], 1)
  }

  /** get_valid_moves: the target squares of the piece on `idx`, left direction first. */
  function ValidMoves(b: Board, idx: int): seq<int>
    requires 0 <= idx < Cols
  {
    var p := b[idx];
    if p == WKnight || p == BKnight then Hops(b, idx, Owner(p), [-1, 1], 2)
    else if p == WRook || p == BRook then Slides(b, idx, Owner(p), [-1, 1])
    else if p == WKing || p == BKing then Hops(b, idx, Owner(p), [-1, 1], 1)
    else []
  }

  /** One step of the rook's ray. */
  lemma SlideUnfold(b: Board, idx: int, owner: Option<Side>, d: int, i: int)
    requires 1 <= i < Cols
    ensures var t := Sq(idx, d, i);
      Slide(b, idx, owner, d, i) ==
        if !(0 <= t < Cols) then []
        else if b[t] == EmptySquare then [t] + Slide(b, idx, owner, d, i + 1)
        else if Owner(b[t]) != owner then [t]
        else []
  {
  }

  /** A knight's (dist 2) or king's (dist 1) targets: exactly idx ± dist on the board and open. */
  lemma HopTargets(b: Board, idx: int, owner: Option<Side>, dist: int, t: int)
    ensures t in Hops(b, idx, owner, [-1, 1], dist) <==>
      (t == idx - dist || t == idx + dist) && 0 <= t < Cols && Open(b, t, owner)
  {
    var l, r := idx + -1 * dist, idx + 1 * dist;
    assert [-1, 1][..1] == [-1] && [-1][..0] == [];
    assert Hops(b, idx, owner, [-1], dist) == (if 0 <= l < Cols && Open(b, l, owner) then [l] else []);
    assert Hops(b, idx, owner, [-1, 1], dist) ==
      Hops(b, idx, owner, [-1], dist) + (if 0 <= r < Cols && Open(b, r, owner) then [r] else []);
  }

  /**
   * The rook's ray from `idx` in direction `d`: `t` lies on that side, at
   * least `i` and fewer than eight steps away, every square strictly
   * before it is empty and `t` itself is open.
   */
  ghost predicate Ray(b: Board, idx: int, owner: Option<Side>, d: int, i: int, t: int) {
    0 <= t < Cols && i <= Dist(idx, d, t) < Cols &&
    (forall k :: i <= k < Dist(idx, d, t) ==> 0 <= Sq(idx, d, k) < Cols && b[Sq(idx, d, k)] == EmptySquare) &&
    Open(b, t, owner)
  }

  lemma {:induction false} SlideIsRay(b: Board, idx: int, owner: Option<Side>, d: int, i: int, t: int)
    requires i >= 1 && (d == -1 || d == 1)
    ensures t in Slide(b, idx, owner, d, i) <==> Ray(b, idx, owner, d, i, t)
    decreases Cols - i
  {
    var s := Sq(idx, d, i);
    assert (t == s <==> Dist(idx, d, t) == i);
    if i < Cols && 0 <= s < Cols {
      SlideIsRay(b, idx, owner, d, i + 1, t);
      if b[s] == EmptySquare {
        assert Slide(b, idx, owner, d, i) == [s] + Slide(b, idx, owner, d, i + 1);
        if t != s && Ray(b, idx, owner, d, i, t) {
          assert Ray(b, idx, owner, d, i + 1, t);
        }
        if t != s && Ray(b, idx, owner, d, i + 1, t) {
          assert Ray(b, idx, owner, d, i, t);
        }
      } else {
        assert Slide(b, idx, owner, d, i) == if Owner(b[s]) != owner then [s] else [];
      }
    } else if i < Cols {
      assert Slide(b, idx, owner, d, i) == [];
    }
  }

  /**
   * A rook's targets: in either direction, the squares it reaches over
   * empty squares, ending at the first enemy (included) or before an own
   * piece or the edge.
   */
  lemma RookTargets(b: Board, idx: int, owner: Option<Side>, t: int)
    ensures t in Slides(b, idx, owner, [-1, 1]) <==> Ray(b, idx, owner, -1, 1, t) || Ray(b, idx, owner, 1, 1, t)
  {
    assert [-1, 1][..1] == [-1] && [-1][..0] == [];
    assert Slides(b, idx, owner, [-1]) == [] + Slide(b, idx, owner, -1, 1) == Slide(b, idx, owner, -1, 1);
    assert Slides(b, idx, owner, [-1, 1]) == Slide(b, idx, owner, -1, 1) + Slide(b, idx, owner, 1, 1);
    SlideIsRay(b, idx, owner, -1, 1, t);
    SlideIsRay(b, idx, owner, 1, 1, t);
  }

  /** No move lands on a square held by a piece of the mover's own side. */
  lemma NoOwnTarget(b: Board, idx: int, t: int)
    requires 0 <= idx < Cols && t in ValidMoves(b, idx)
    ensures 0 <= t < Cols && t != idx && (b[t] == EmptySquare || Owner(b[t]) != Owner(b[idx]))
  {
    var p := b[idx];
    if p == WKnight || p == BKnight {
      HopTargets(b, idx, Owner(p), 2, t);
    } else if p == WRook || p == BRook {
      RookTargets(b, idx, Owner(p), t);
    } else {
      HopTargets(b, idx, Owner(p), 1, t);
    }
  }

  // ---------------------------------------------------------------------
  // The AI's choice

  /** What the AI thinks of moving from `idx` to `m`: 100 for the white king, 10 for another capture, +1 leftward. */
  function Score(b: Board, idx: int, m: int): int
    requires 0 <= m < Cols
  {
    (if b[m] == WKing then 100 else if b[m] != EmptySquare then 10 else 0) + (if m < idx then 1 else 0)
  }

  /** Every square of `ms` is on the board. */
  predicate AllOnBoard(ms: seq<int>) { forall i :: 0 <= i < |ms| ==> 0 <= ms[i] < Cols }

  /** (score, from, to) for each target in `ms` of the piece on `idx`. */
  function Scored(b: Board, idx: int, ms: seq<int>): seq<(int, int, int)>
    requires AllOnBoard(ms)
  {
    if ms == [] then []
    else
      var m := ms[|ms| - 1];
      Scored(b, idx, ms[..|ms| - 1]) + [(Score(b, idx, m), idx, m)]
  }

  /** The squares of the black pieces among the first `n`, left to right. */
  function BlackSquares(b: Board, n: nat): (s: seq<int>)
    requires n <= Cols
    ensures AllOnBoard(s) && forall i :: 0 <= i < |s| ==> s[i] < n && Owner(b[s[i]]) == Some(Black)
  {
    if n == 0 then [] else BlackSquares(b, n - 1) + (if Owner(b[n - 1]) == Some(Black) then [n - 1] else [])
  }

  /** The scored moves of the pieces on `squares`, piece by piece. */
  function ScoredMoves(b: Board, squares: seq<int>): seq<(int, int, int)>
    requires AllOnBoard(squares)
  {
    if squares == [] then []
    else
      var idx := squares[|squares| - 1];
      TargetsOnBoard(b, idx);
      ScoredMoves(b, squares[..|squares| - 1]) + Scored(b, idx, ValidMoves(b, idx))
  }

  lemma TargetsOnBoard(b: Board, idx: int)
    requires 0 <= idx < Cols
    ensures AllOnBoard(ValidMoves(b, idx))
  {
    var ms := ValidMoves(b, idx);
    forall i | 0 <= i < |ms| ensures 0 <= ms[i] < Cols {
      NoOwnTarget(b, idx, ms[i]);
    }
  }

  /** Scoring one more piece appends that piece's scored targets. */
  lemma ScoredMovesNext(b: Board, squares: seq<int>, k: int)
    requires AllOnBoard(squares) && 0 <= k < |squares|
    ensures AllOnBoard(ValidMoves(b, squares[k]))
    ensures ScoredMoves(b, squares[..k + 1]) == ScoredMoves(b, squares[..k]) + Scored(b, squares[k], ValidMoves(b, squares[k]))
  {
    TargetsOnBoard(b, squares[k]);
    assert squares[..k + 1][..k] == squares[..k];
  }

  /** Every move of black, scored: all_moves before sorting. */
  function AllMoves(b: Board): seq<(int, int, int)>
  {
    ScoredMoves(b, BlackSquares(b, Cols))
  }

  /** The scores of `all` as search values. */
  function ScoreValues(all: seq<(int, int, int)>): (vals: seq<Search.Value>)
    ensures |vals| == |all| && forall i :: 0 <= i < |all| ==> vals[i] == Search.Fin(all[i].0)
  {
    seq(|all|, i requires 0 <= i < |all| => Search.Fin(all[i].0))
  }

  // ---------------------------------------------------------------------
  // The game object

  class Game {
    var board: Board
    var turn: Side
    var winner: Option<Outcome>

    constructor ()
      ensures board == InitialBoard() && turn == White && winner == None
    {
      board := InitialBoard();
      turn := White;
      winner := None;
    }

    method GetValidMoves(idx: int) returns (moves: seq<int>)
      requires 0 <= idx < Cols
      ensures moves == ValidMoves(board, idx)
    {
      moves := [];
      var p := board[idx];
      var owner := Owner(p);
      var dirs := [-1, 1];
      if p == WKnight || p == BKnight {
        moves := HopAll(idx, owner, dirs, 2);
      } else if p == WRook || p == BRook {
        for k := 0 to |dirs|
          invariant moves == Slides(board, idx, owner, dirs[..k])
        {
          assert dirs[..k + 1][..k] == dirs[..k];
          var found := SlideFrom(idx, owner, dirs[k]);
          moves := moves + found;
        }
        assert dirs[..|dirs|] == dirs;
      } else if p == WKing || p == BKing {
        moves := HopAll(idx, owner, dirs, 1);
      }
    }

    /** The knight's (dist 2) or the king's (dist 1) loop over the directions. */
    method HopAll(idx: int, owner: Option<Side>, dirs: seq<int>, dist: int) returns (moves: seq<int>)
      ensures moves == Hops(board, idx, owner, dirs, dist)
    {
      moves := [];
      for k := 0 to |dirs|
        invariant moves == Hops(board, idx, owner, dirs[..k], dist)
      {
        assert dirs[..k + 1][..k] == dirs[..k];
        var target := idx + dirs[k] * dist;
        if 0 <= target < Cols {
          var targetP := board[target];
          if targetP == EmptySquare || Owner(targetP) != owner {
            moves := moves + [target];
          }
        }
      }
      assert dirs[..|dirs|] == dirs;
    }

    /** The rook's inner loop in direction `d`: squares 1 to 7 away, until blocked. */
    method SlideFrom(idx: int, owner: Option<Side>, d: int) returns (moves: seq<int>)
      requires d == -1 || d == 1
      ensures moves == Slide(board, idx, owner, d, 1)
    {
      moves := [];
      ghost var whole := Slide(board, idx, owner, d, 1);
      for i := 1 to Cols
        invariant moves + Slide(board, idx, owner, d, i) == whole
      {
        var found, blocked := SlideStep(idx, owner, d, i);
        ghost var rest := Slide(board, idx, owner, d, i + 1);
        AppendAssoc(moves, found, rest);
        moves := moves + found;
        if blocked {
          return;
        }
      }
      assert moves + [] == moves;
    }

    /** One square of the rook's inner loop: whether it is taken, and whether the ray stops there. */
    method SlideStep(idx: int, owner: Option<Side>, d: int, i: int) returns (found: seq<int>, blocked: bool)
      requires 1 <= i < Cols && (d == -1 || d == 1)
      ensures Slide(board, idx, owner, d, i) == found + if blocked then [] else Slide(board, idx, owner, d, i + 1)
    {
      var target := idx + d * i;
      assert target == Sq(idx, d, i);
      found, blocked := [], true;
      if 0 <= target < Cols {
        var targetP := board[target];
        if targetP == EmptySquare {
          found, blocked := [target], false;
        } else if Owner(targetP) != owner {
          found := [target];
        }
      }
    }

    /** Takes whatever stands on `end`; taking a king decides the game. */
    method MakeMove(start: int, end: int)
      requires 0 <= start < Cols && 0 <= end < Cols
      modifies this
      ensures board == old(board)[end := old(board)[start]][start := EmptySquare]
      ensures winner == if old(board)[end] == WKing then Some(BlackWins)
                        else if old(board)[end] == BKing then Some(WhiteWins)
                        else old(winner)
      ensures turn == if old(turn) == White then Black else White
    {
      var targetP := board[end];
      if targetP == WKing {
        winner := Some(BlackWins);
      }
      if targetP == BKing {
        winner := Some(WhiteWins);
      }
      board := board[end := board[start]];
      board := board[start := EmptySquare];
      turn := if turn == White then Black else White;
    }

    method BlackPieces() returns (squares: seq<int>)
      ensures squares == BlackSquares(board, Cols)
    {
      squares := [];
      for i := 0 to Cols
        invariant squares == BlackSquares(board, i)
      {
        if Owner(board[i]) == Some(Black) {
          squares := squares + [i];
        }
      }
    }

    /** Scores every move of black, in the order of pieces and then targets. */
    method CollectMoves() returns (all: seq<(int, int, int)>)
      ensures all == AllMoves(board)
    {
      var myPieces := BlackPieces();
      all := [];
      for k := 0 to |myPieces|
        invariant all == ScoredMoves(board, myPieces[..k])
      {
        var idx := myPieces[k];
        var moves := GetValidMoves(idx);
        ScoredMovesNext(board, myPieces, k);
        var scored := ScoreEach(idx, moves);
        all := all + scored;
      }
      assert myPieces[..|myPieces|] == myPieces;
    }

    /** The inner loop of ai_move: scores each target of the piece on `idx`. */
    method ScoreEach(idx: int, moves: seq<int>) returns (scored: seq<(int, int, int)>)
      requires AllOnBoard(moves)
      ensures scored == Scored(board, idx, moves)
    {
      scored := [];
      for j := 0 to |moves|
        invariant scored == Scored(board, idx, moves[..j])
      {
        assert moves[..j + 1][..j] == moves[..j];
        var m := moves[j];
        var score := 0;
        var target := board[m];
        if target == WKing {
          score := 100;
        } else if target != EmptySquare {
          score := 10;
        }
        if m < idx {
          score := score + 1;
        }
        scored := scored + [(score, idx, m)];
      }
      assert moves[..|moves|] == moves;
    }

    /**
     * ai_move: among black's moves of the highest score, the `pick`-th
     * (cyclically, for the random choice) in generation order is played;
     * nothing happens when black has no move.
     */
    method AiMove(pick: nat)
      modifies this
      ensures AllMoves(old(board)) == [] ==> board == old(board) && turn == old(turn) && winner == old(winner)
      ensures AllMoves(old(board)) != [] ==>
        var c := AiPick(AllMoves(old(board)), pick);
        0 <= c.1 < Cols && 0 <= c.2 < Cols &&
        board == old(board)[c.2 := old(board)[c.1]][c.1 := EmptySquare] &&
        winner == (if old(board)[c.2] == WKing then Some(BlackWins)
                   else if old(board)[c.2] == BKing then Some(WhiteWins)
                   else old(winner)) &&
        turn == if old(turn) == White then Black else White
    {
      var all := CollectMoves();
      if all != [] {
        var best, candidates := BestMoves(all);
        PickIsChoose(all, best, pick);
        var choice := candidates[pick % |candidates|];
        MoveBounds(board, choice);
        MakeMove(choice.1, choice.2);
      }
    }
  }

  /** The move of `all` that the random choice `pick` lands on among the best-scoring ones. */
  function AiPick(all: seq<(int, int, int)>, pick: nat): (x: (int, int, int))
    requires all != []
    ensures x in all && forall y :: y in all ==> y.0 <= x.0
  {
    var k := Search.Choose(ScoreValues(all), true, Search.Uniform(pick));
    assert forall j :: 0 <= j < |all| ==> Search.Le(Search.Fin(all[j].0), Search.Fin(all[k].0));
    all[k]
  }

  /** The candidate list of ai_move, read at `pick`, is the move AiPick names. */
  lemma PickIsChoose(all: seq<(int, int, int)>, best: int, pick: nat)
    requires all != [] && Search.Fin(best) == Search.ExtremeOf(ScoreValues(all), true, ScoreValues(all)[0])
    ensures |WithScore(all, best)| > 0 && WithScore(all, best)[pick % |WithScore(all, best)|] == AiPick(all, pick)
  {
    WithScoreIndices(all, best);
    Search.BestIndices(ScoreValues(all), true);
  }

  lemma {:induction false} ScoredIn(b: Board, idx: int, ms: seq<int>, x: (int, int, int))
    requires AllOnBoard(ms)
    ensures x in Scored(b, idx, ms) <==> x.1 == idx && x.2 in ms && 0 <= x.2 < Cols && x.0 == Score(b, idx, x.2)
  {
    if ms != [] {
      var p := ms[..|ms| - 1];
      ScoredIn(b, idx, p, x);
      assert ms == p + [ms[|ms| - 1]];
    }
  }

  lemma {:induction false} ScoredMovesIn(b: Board, squares: seq<int>, x: (int, int, int))
    requires AllOnBoard(squares)
    ensures x in ScoredMoves(b, squares) <==>
      x.1 in squares && 0 <= x.1 < Cols && x.2 in ValidMoves(b, x.1) && 0 <= x.2 < Cols && x.0 == Score(b, x.1, x.2)
  {
    if squares != [] {
      var p, idx := squares[..|squares| - 1], squares[|squares| - 1];
      ScoredMovesIn(b, p, x);
      TargetsOnBoard(b, idx);
      ScoredIn(b, idx, ValidMoves(b, idx), x);
      assert squares == p + [idx];
      var before, last := ScoredMoves(b, p), Scored(b, idx, ValidMoves(b, idx));
      assert ScoredMoves(b, squares) == before + last;
      assert x in before + last <==> x in before || x in last;
      assert x.1 in squares <==> x.1 in p || x.1 == idx;
    }
  }

  lemma {:induction false} BlackSquaresIn(b: Board, n: nat, i: int)
    requires n <= Cols
    ensures i in BlackSquares(b, n) <==> 0 <= i < n && Owner(b[i]) == Some(Black)
  {
    if n > 0 {
      BlackSquaresIn(b, n - 1, i);
    }
  }

  /**
   * The AI considers exactly the moves of black's pieces, each with its
   * score: every move in all_moves is a valid move of a black piece, and
   * every valid move of a black piece is in it.
   */
  lemma AllMovesAreBlackMoves(b: Board, x: (int, int, int))
    ensures x in AllMoves(b) <==>
      0 <= x.1 < Cols && Owner(b[x.1]) == Some(Black) && x.2 in ValidMoves(b, x.1) && 0 <= x.2 < Cols &&
      x.0 == Score(b, x.1, x.2)
  {
    ScoredMovesIn(b, BlackSquares(b, Cols), x);
    BlackSquaresIn(b, Cols, x.1);
    if 0 <= x.1 < Cols && x.2 in ValidMoves(b, x.1) {
      NoOwnTarget(b, x.1, x.2);
    }
  }

  lemma MoveBounds(b: Board, x: (int, int, int))
    requires x in AllMoves(b)
    ensures 0 <= x.1 < Cols && 0 <= x.2 < Cols && x.0 == Score(b, x.1, x.2)
  {
    AllMovesAreBlackMoves(b, x);
  }

  /** Whenever black can take the white king, the AI takes it, whatever the random pick. */
  lemma AiTakesKing(b: Board, pick: nat, x: (int, int, int))
    requires x in AllMoves(b) && 0 <= x.2 < Cols && b[x.2] == WKing
    ensures var y := AiPick(AllMoves(b), pick); 0 <= y.2 < Cols && b[y.2] == WKing
  {
    var y := AiPick(AllMoves(b), pick);
    MoveBounds(b, x);
    MoveBounds(b, y);
  }

  /** The moves of `all` whose score is `best`, in their order. */
  function WithScore(all: seq<(int, int, int)>, best: int): seq<(int, int, int)>
  {
    if all == [] then []
    else WithScore(all[..|all| - 1], best) + (if all[|all| - 1].0 == best then [all[|all| - 1]] else [])
  }

  /** Keeping the moves of one score, in order, is reading `all` at the positions of that score. */
  lemma {:induction false} WithScoreIndices(all: seq<(int, int, int)>, best: int)
    ensures var c := Search.Indices(ScoreValues(all), Search.Fin(best));
      |WithScore(all, best)| == |c| && forall j :: 0 <= j < |c| ==> WithScore(all, best)[j] == all[c[j]]
  {
    if all != [] {
      var p := all[..|all| - 1];
      WithScoreIndices(p, best);
      assert ScoreValues(all)[..|all| - 1] == ScoreValues(p);
    }
  }

  /**
   * The candidates of the random choice: the stable descending sort puts
   * the highest score first, and the moves of that score keep their order.
   */
  method BestMoves(all: seq<(int, int, int)>) returns (best: int, candidates: seq<(int, int, int)>)
    requires all != []
    ensures Search.Fin(best) == Search.ExtremeOf(ScoreValues(all), true, ScoreValues(all)[0])
    ensures candidates == WithScore(all, best)
  {
    ghost var vals := ScoreValues(all);
    best := all[0].0;
    for i := 0 to |all|
      invariant Search.Fin(best) == Search.ExtremeOf(vals[..i], true, vals[0])
    {
      assert vals[..i + 1][..i] == vals[..i];
      if all[i].0 > best {
        best := all[i].0;
      }
    }
    assert vals[..|all|] == vals;
    candidates := [];
    for i := 0 to |all|
      invariant candidates == WithScore(all[..i], best)
    {
      assert all[..i + 1][..i] == all[..i];
      if all[i].0 == best {
        candidates := candidates + [all[i]];
      }
    }
    assert all[..|all|] == all;
  }
}

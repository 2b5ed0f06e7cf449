/**
 * Tic-tac-toe: the win/draw test, a move by the player to move, and the
 * full-depth minimax that tries each empty cell on the board itself and
 * puts it back before the next one.  The search is the generic one of
 * module Search, instantiated with the position (board, plies played).
 */
module TicTacToe {
  import opened Options
  import Search

  /** A cell: empty (None), 'X' (the player) or 'O' (the AI). */
  datatype Cell = E | X | O

  type Board = b: seq<Cell> | |b| == 9 witness [E, E, E, E, E, E, E, E, E]

  /** Three cell positions forming a line. */
  datatype Line = Line(a: nat, b: nat, c: nat)

  /** The eight lines in the order the win test tries them: rows, columns, diagonals. */
  const Lines: seq<Line> := [Line(0, 1, 2), Line(3, 4, 5), Line(6, 7, 8),
                             Line(0, 3, 6), Line(1, 4, 7), Line(2, 5, 8),
                             Line(0, 4, 8), Line(2, 4, 6)]

  predicate Complete(b: Board, l: Line)
    requires l.a < 9 && l.b < 9 && l.c < 9
  {
    b[l.a] != E && b[l.a] == b[l.b] && b[l.b] == b[l.c]
  }

  /** The first complete line of `Lines` from position `k` on. */
  function FirstComplete(b: Board, k: nat): Option<Line>
    decreases 8 - k
  {
    if k >= 8 then None
    else if Complete(b, Lines[k]) then Some(Lines[k])
    else FirstComplete(b, k + 1)
  }

  /** The result of check_win: the winning mark and its line, 'DRAW', or nothing yet. */
  datatype Outcome = NoResult | Won(mark: Cell, line: Line) | Drawn

  /** The win test: rows, then columns, then the two diagonals; a full board with no line is a draw. */
  function CheckWin(b: Board): (r: Outcome)
    ensures r.Won? <==> FirstComplete(b, 0).Some?
    ensures r.Won? ==> r.line == FirstComplete(b, 0).value && r.mark == b[r.line.a] && r.mark != E
    ensures r.Drawn? <==> FirstComplete(b, 0).None? && E !in b
    ensures r.NoResult? <==> FirstComplete(b, 0).None? && E in b
  {
    if b[0] != E && b[0] == b[1] == b[2] then Won(b[0], Line(0, 1, 2))
    else if b[3] != E && b[3] == b[4] == b[5] then Won(b[3], Line(3, 4, 5))
    else if b[6] != E && b[6] == b[7] == b[8] then Won(b[6], Line(6, 7, 8))
    else if b[0] != E && b[0] == b[3] == b[6] then Won(b[0], Line(0, 3, 6))
    else if b[1] != E && b[1] == b[4] == b[7] then Won(b[1], Line(1, 4, 7))
    else if b[2] != E && b[2] == b[5] == b[8] then Won(b[2], Line(2, 5, 8))
    else if b[0] != E && b[0] == b[4] == b[8] then Won(b[0], Line(0, 4, 8))
    else if b[2] != E && b[2] == b[4] == b[6] then Won(b[2], Line(2, 4, 6))
    else if E !in b then Drawn
    else NoResult
  }

  /** The positions of the empty cells below `n`, ascending. */
  function EmptiesBelow(b: Board, n: nat): (r: seq<nat>)
    requires n <= 9
    ensures |r| <= n
    ensures forall k :: 0 <= k < |r| ==> r[k] < n && b[r[k]] == E
  {
    if n == 0 then [] else EmptiesBelow(b, n - 1) + (if b[n - 1] == E then [n - 1] else [])
  }

  /** The moves a side can make: every empty cell, in index order. */
  function EmptyCells(b: Board): seq<nat> { EmptiesBelow(b, 9) }

  lemma {:induction false} EmptiesBelowPrefix(b: Board, i: nat, n: nat)
    requires i <= n <= 9
    ensures |EmptiesBelow(b, i)| <= |EmptiesBelow(b, n)|
    ensures EmptiesBelow(b, n)[..|EmptiesBelow(b, i)|] == EmptiesBelow(b, i)
  {
    if i < n {
      EmptiesBelowPrefix(b, i, n - 1);
    }
  }

  lemma {:induction false} EmptiesBelowComplete(b: Board, n: nat)
    requires n <= 9
    ensures (exists j :: 0 <= j < n && b[j] == E) <==> |EmptiesBelow(b, n)| > 0
  {
    if n > 0 {
      EmptiesBelowComplete(b, n - 1);
    }
  }

  /** Filling an empty cell removes exactly that cell from the empty ones below it. */
  lemma {:induction false} EmptiesBelowFill(b: Board, i: nat, m: Cell, n: nat)
    requires i < 9 && n <= 9 && b[i] == E && m != E
    ensures |EmptiesBelow(b[i := m], n)| == |EmptiesBelow(b, n)| - (if i < n then 1 else 0)
  {
    if n > 0 {
      EmptiesBelowFill(b, i, m, n - 1);
    }
  }

  lemma NoEmptyCells(b: Board)
    ensures |EmptyCells(b)| == 0 <==> E !in b
  {
    EmptiesBelowComplete(b, 9);
  }

  /** The position searched: the board and the plies played since the search began. */
  datatype TState = TState(board: Board, depth: int)

  /**
   * Terminal values: 10 - depth for an O win, depth - 10 for an X win, 0
   * for a draw.  Within nine plies a win beats a draw for its side, and
   * a sooner win beats a later one.
   */
  function TerminalScore(r: Outcome, depth: int): (v: int)
    ensures 0 <= depth <= 9 && r.Won? && r.mark == O ==> 0 < v <= 10
    ensures 0 <= depth <= 9 && r.Won? && r.mark == X ==> -10 <= v < 0
    ensures r.Drawn? ==> v == 0
  {
    match r
    case Won(m, _) => if m == O then 10 - depth else if m == X then depth - 10 else 0
    case Drawn => 0
    case NoResult => 0
  }

  /** A sooner win is worth more to the winner than a later one. */
  lemma SoonerWinIsBetter(r: Outcome, d: int, d': int)
    requires r.Won? && d < d'
    ensures r.mark == O ==> TerminalScore(r, d') < TerminalScore(r, d)
    ensures r.mark == X ==> TerminalScore(r, d) < TerminalScore(r, d')
  {
  }

  function Leaf(s: TState): int { TerminalScore(CheckWin(s.board), s.depth) }

  function Mark(maxing: bool): Cell { if maxing then O else X }

  /** The maximizing side plays O, the minimizing side X. */
  function Apply(s: TState, i: nat, maxing: bool): TState {
    if i < 9 then TState(s.board[i := Mark(maxing)], s.depth + 1) else s
  }

  function Moves(s: TState, maxing: bool): seq<nat> { EmptyCells(s.board) }

  function Terminal(s: TState): bool { CheckWin(s.board) != NoResult }

  /** Tic-tac-toe as a game for the generic search; a full board is terminal, so the no-move rule never applies. */
  const G: Search.Game<TState, nat> := Search.Game(Moves, Apply, Terminal, Leaf, Search.Draw, Search.Fin(-1000), Search.Fin(1000))

  /** Searching as many plies as there are empty cells never stops early: the value is the full game-tree value. */
  function Value(b: Board, depth: int, maxing: bool): Search.Value {
    Search.Minimax(G, TState(b, depth), |EmptyCells(b)|, maxing)
  }

  /** The fold over the children reached by filling the empty cells below `n`. */
  function Partial(b: Board, depth: int, maxing: bool, n: nat): Search.Value
    requires n <= 9 && |EmptyCells(b)| > 0
  {
    EmptiesBelowPrefix(b, n, 9);
    Search.ExtremeOf(Search.ChildValues(G, TState(b, depth), |EmptyCells(b)|, maxing)[..|EmptiesBelow(b, n)|], maxing, Search.Init(G, maxing))
  }

  /** A decided board scores its terminal value; an undecided one has an empty cell and folds over its children. */
  lemma ValueUnfold(b: Board, depth: int, maxing: bool)
    ensures CheckWin(b) != NoResult ==> Value(b, depth, maxing) == Search.Fin(TerminalScore(CheckWin(b), depth))
    ensures CheckWin(b) == NoResult ==> |EmptyCells(b)| > 0
    ensures CheckWin(b) == NoResult ==> Value(b, depth, maxing) == Partial(b, depth, maxing, 9)
  {
    NoEmptyCells(b);
    if CheckWin(b) == NoResult {
      var vals := Search.ChildValues(G, TState(b, depth), |EmptyCells(b)|, maxing);
      assert vals[..|EmptyCells(b)|] == vals;
    }
  }

  /** The k-th child value is the value of the board with the k-th empty cell filled, one ply deeper. */
  lemma ChildValueAt(b: Board, depth: int, maxing: bool, k: nat)
    requires k < |EmptyCells(b)|
    ensures EmptyCells(b)[k] < 9 && b[EmptyCells(b)[k]] == E
    ensures Search.ChildValues(G, TState(b, depth), |EmptyCells(b)|, maxing)[k] ==
      Value(b[EmptyCells(b)[k] := Mark(maxing)], depth + 1, !maxing)
  {
    var i := EmptyCells(b)[k];
    EmptiesBelowFill(b, i, Mark(maxing), 9);
    var s := TState(b, depth);
    assert G.moves(s, maxing) == EmptyCells(b);
    assert G.apply(s, i, maxing) == TState(b[i := Mark(maxing)], depth + 1);
    var vals := Search.ChildValues(G, s, |EmptyCells(b)|, maxing);
    assert vals[k] == Search.Minimax(G, G.apply(s, i, maxing), |EmptyCells(b)| - 1, !maxing);
  }

  /** Every node value within nine plies is a terminal value, between -10 and 10. */
  lemma {:induction false} ValueBounds(b: Board, depth: int, maxing: bool)
    requires 0 <= depth && depth + |EmptyCells(b)| <= 9
    ensures Value(b, depth, maxing).Fin? && -10 <= Value(b, depth, maxing).n <= 10
    decreases |EmptyCells(b)|, 1
  {
    ValueUnfold(b, depth, maxing);
    if CheckWin(b) == NoResult {
      var vals := Search.ChildValues(G, TState(b, depth), |EmptyCells(b)|, maxing);
      forall k | 0 <= k < |vals|
        ensures vals[k].Fin? && -10 <= vals[k].n <= 10
      {
        ChildBounds(b, depth, maxing, k);
      }
      Search.ExtremeOfAttained(vals, maxing, Search.Init(G, maxing));
    }
  }

  /** The bound for one child of an undecided board. */
  lemma {:induction false} ChildBounds(b: Board, depth: int, maxing: bool, k: nat)
    requires 0 <= depth && depth + |EmptyCells(b)| <= 9 && k < |EmptyCells(b)|
    ensures var v := Search.ChildValues(G, TState(b, depth), |EmptyCells(b)|, maxing)[k];
      v.Fin? && -10 <= v.n <= 10
    decreases |EmptyCells(b)|, 0
  {
    ChildValueAt(b, depth, maxing, k);
    var i := EmptyCells(b)[k];
    EmptiesBelowFill(b, i, Mark(maxing), 9);
    ValueBounds(b[i := Mark(maxing)], depth + 1, !maxing);
  }

  /** One pass of the cell loop: an empty cell folds its child's value in, an occupied one is skipped. */
  lemma CellStep(b: Board, depth: int, maxing: bool, i: nat, best: int, v: int)
    requires i < 9 && |EmptyCells(b)| > 0
    requires Search.Fin(best) == Partial(b, depth, maxing, i)
    requires b[i] == E ==> Search.Fin(v) == Value(b[i := Mark(maxing)], depth + 1, !maxing)
    ensures var best' := if b[i] != E then best else if maxing then (if best <= v then v else best) else (if best <= v then best else v);
      Search.Fin(best') == Partial(b, depth, maxing, i + 1)
  {
    if b[i] == E {
      CellFold(b, depth, maxing, i, best, v);
    } else {
      assert EmptiesBelow(b, i + 1) == EmptiesBelow(b, i);
    }
  }

  /** The fold step for an empty cell: its child is the next child value. */
  lemma CellFold(b: Board, depth: int, maxing: bool, i: nat, best: int, v: int)
    requires i < 9 && |EmptyCells(b)| > 0 && b[i] == E
    requires Search.Fin(best) == Partial(b, depth, maxing, i)
    requires Search.Fin(v) == Value(b[i := Mark(maxing)], depth + 1, !maxing)
    ensures Search.Fin(if maxing then (if best <= v then v else best) else (if best <= v then best else v)) == Partial(b, depth, maxing, i + 1)
  {
    var vals := Search.ChildValues(G, TState(b, depth), |EmptyCells(b)|, maxing);
    var k := |EmptiesBelow(b, i)|;
    EmptyCellIndex(b, i);
    ChildValueAt(b, depth, maxing, k);
    Search.FoldFin(vals, maxing, Search.Init(G, maxing), k, best, v);
  }

  /**
   * The search of the source: on a decided board return its terminal
   * value; otherwise try each empty cell in index order, writing the
   * mark, searching one ply deeper and writing None back.
   */
  method Minimax(board: array<Cell>, depth: int, isMax: bool) returns (score: int)
    requires board.Length == 9
    modifies board
    ensures board[..] == old(board[..])
    ensures Search.Fin(score) == Value(old(board[..]), depth, isMax)
    decreases |EmptyCells(board[..])|
  {
    var res := CheckWin(board[..]);
    ghost var b: Board := board[..];
    ValueUnfold(b, depth, isMax);
    if res.Won? && res.mark == O {
      return 10 - depth;
    }
    if res.Won? && res.mark == X {
      return depth - 10;
    }
    if res.Drawn? {
      return 0;
    }
    var best := if isMax then -1000 else 1000;
    var i := 0;
    while i < 9
      invariant 0 <= i <= 9
      invariant board[..] == b
      invariant Search.Fin(best) == Partial(b, depth, isMax, i)
    {
      var v := 0;
      if board[i] == E {
        EmptiesBelowFill(b, i, Mark(isMax), 9);
        board[i] := Mark(isMax);
        v := Minimax(board, depth + 1, !isMax);
        board[i] := E;
        assert board[..] == b;
      }
      CellStep(b, depth, isMax, i, best, v);
      if board[i] == E {
        best := if isMax then (if best <= v then v else best) else (if best <= v then best else v);
      }
      i := i + 1;
    }
    return best;
  }

  /** The values ai_move compares: O placed on each empty cell, searched from depth 0. */
  function RootValues(b: Board): seq<Search.Value>
    requires |EmptyCells(b)| > 0
  {
    Search.ChildValues(G, TState(b, -1), |EmptyCells(b)|, true)
  }

  /** What ai_move's loop knows after the cells below `n`: the fold so far, and the cell it keeps. */
  predicate AiInv(b: Board, n: nat, bestVal: int, k: nat, move: int)
    requires n <= 9 && |EmptyCells(b)| > 0
  {
    |EmptiesBelow(b, n)| <= |EmptyCells(b)| && k < |EmptyCells(b)| &&
    Search.Fin(bestVal) == Search.ExtremeOf(RootValues(b)[..|EmptiesBelow(b, n)|], true, Search.Fin(-1000)) &&
    if Search.Beats(true, Search.Fin(-1000), Search.Fin(bestVal))
    then Search.FirstBest(RootValues(b)[..|EmptiesBelow(b, n)|], true, k) && RootValues(b)[k] == Search.Fin(bestVal) && move == EmptyCells(b)[k]
    else k == 0 && move == -1
  }

  /** The cell with index `i` is the `j`-th empty cell, `j` counting the empty cells below it. */
  lemma EmptyCellIndex(b: Board, i: nat)
    requires i < 9 && b[i] == E
    ensures |EmptiesBelow(b, i + 1)| == |EmptiesBelow(b, i)| + 1
    ensures |EmptiesBelow(b, i)| < |EmptyCells(b)| && EmptyCells(b)[|EmptiesBelow(b, i)|] == i
  {
    var e1 := EmptiesBelow(b, i + 1);
    EmptiesBelowPrefix(b, i + 1, 9);
    assert e1 == EmptiesBelow(b, i) + [i];
    assert EmptyCells(b)[..|e1|] == e1;
    assert EmptyCells(b)[|EmptiesBelow(b, i)|] == EmptyCells(b)[..|e1|][|EmptiesBelow(b, i)|];
  }

  /** One pass of ai_move's loop over an occupied cell changes nothing. */
  lemma AiSkip(b: Board, i: nat, bestVal: int, k: nat, move: int)
    requires i < 9 && |EmptyCells(b)| > 0 && b[i] != E
    requires AiInv(b, i, bestVal, k, move)
    ensures AiInv(b, i + 1, bestVal, k, move)
  {
    assert EmptiesBelow(b, i + 1) == EmptiesBelow(b, i);
  }

  /** One pass of ai_move's loop over an empty cell: a strictly better value replaces the kept cell. */
  lemma AiStep(b: Board, i: nat, bestVal: int, k: nat, move: int, v: int)
    requires i < 9 && |EmptyCells(b)| > 0 && b[i] == E
    requires AiInv(b, i, bestVal, k, move)
    requires Search.Fin(v) == Value(b[i := O], 0, false)
    ensures AiInv(b, i + 1, if v > bestVal then v else bestVal, if v > bestVal then |EmptiesBelow(b, i)| else k,
                  if v > bestVal then i else move)
  {
    var vals := RootValues(b);
    var j := |EmptiesBelow(b, i)|;
    EmptyCellIndex(b, i);
    ChildValueAt(b, -1, true, j);
    assert vals[j] == Search.Fin(v);
    Search.RootStep(vals, j, true, Search.Fin(-1000), Search.Fin(bestVal), k, 0);
  }

  /**
   * After the whole loop the kept cell is the first best child: every child
   * value lies in [-10, 10], so the initial -1000 is always beaten.
   */
  lemma AiResult(b: Board, bestVal: int, k: nat, move: int)
    requires |EmptyCells(b)| > 0
    requires AiInv(b, 9, bestVal, k, move)
    ensures move == EmptyCells(b)[Search.Choose(RootValues(b), true, Search.FirstStrict)]
  {
    var vals := RootValues(b);
    assert vals[..|vals|] == vals;
    ChildValueAt(b, -1, true, 0);
    EmptiesBelowFill(b, EmptyCells(b)[0], O, 9);
    ValueBounds(b[EmptyCells(b)[0] := O], 0, false);
    Search.ExtremeOfAttained(vals, true, Search.Fin(-1000));
    Search.FirstBestUnique(vals, true, k, Search.Choose(vals, true, Search.FirstStrict));
  }

  /** The board, the mark to move, the outcome so far (winner and winning line), the scores and the AI delay. */
  class Game {
    var board: array<Cell>
    var turn: Cell
    var winner: Outcome
    var scoreX: int
    var scoreO: int
    var aiTimer: int

    ghost predicate Valid()
      reads this
    {
      board.Length == 9 && turn != E
    }

    constructor ()
      ensures Valid() && fresh(board)
      ensures board[..] == [E, E, E, E, E, E, E, E, E] && turn == X && winner == NoResult
      ensures scoreX == 0 && scoreO == 0 && aiTimer == 0
    {
      board := new Cell[9](_ => E);
      turn := X;
      winner := NoResult;
      scoreX, scoreO, aiTimer := 0, 0, 0;
      new;
      assert board[..] == [E, E, E, E, E, E, E, E, E];
    }

    /**
     * Place the mark to move on an empty cell while no result is set;
     * record a result and count a win, or else pass the turn and start
     * the AI delay when O is next.
     */
    method MakeMove(idx: nat)
      requires Valid() && idx < 9
      modifies this, board
      ensures Valid() && board == old(board)
      ensures old(board[idx]) != E || old(winner) != NoResult ==>
        board[..] == old(board[..]) && turn == old(turn) && winner == old(winner) &&
        scoreX == old(scoreX) && scoreO == old(scoreO) && aiTimer == old(aiTimer)
      ensures old(board[idx]) == E && old(winner) == NoResult ==>
        board[..] == old(board[..])[idx := old(turn)] &&
        var res := CheckWin(board[..]);
        if res != NoResult then
          winner == res && turn == old(turn) && aiTimer == old(aiTimer) &&
          scoreX == old(scoreX) + (if res.Won? && res.mark == X then 1 else 0) &&
          scoreO == old(scoreO) + (if res.Won? && res.mark == O then 1 else 0)
        else
          winner == NoResult && turn == (if old(turn) == X then O else X) &&
          aiTimer == (if turn == O then 20 else old(aiTimer)) &&
          scoreX == old(scoreX) && scoreO == old(scoreO)
    {
      if board[idx] == E && winner == NoResult {
        board[idx] := turn;
        var res := CheckWin(board[..]);
        if res != NoResult {
          winner := res;
          if res.Won? && res.mark == X {
            scoreX := scoreX + 1;
          } else if res.Won? && res.mark == O {
            scoreO := scoreO + 1;
          }
        } else {
          turn := if turn == X then O else X;
          if turn == O {
            aiTimer := 20;
          }
        }
      }
    }

    /**
     * The AI's move: the centre if it is empty; otherwise the lowest
     * empty cell whose minimax value (with O placed there and the search
     * counting plies from 0) is strictly greatest, or -1 on a full
     * board.  The board is left as it was.
     */
    method AiMove() returns (move: int)
      requires Valid()
      modifies board
      ensures board[..] == old(board[..])
      ensures old(board[4]) == E ==> move == 4
      ensures old(board[4]) != E && E !in old(board[..]) ==> move == -1
      ensures old(board[4]) != E && |EmptyCells(old(board[..]))| > 0 ==>
        move == EmptyCells(old(board[..]))[Search.Choose(RootValues(old(board[..])), true, Search.FirstStrict)]
    {
      if board[4] == E {
        return 4;
      }
      ghost var b: Board := board[..];
      NoEmptyCells(b);
      var bestVal := -1000;
      move := -1;
      if E !in board[..] {
        return;
      }
      ghost var k: nat := 0;
      var i := 0;
      while i < 9
        invariant 0 <= i <= 9
        invariant board[..] == b
        invariant AiInv(b, i, bestVal, k, move)
      {
        if board[i] == E {
          EmptiesBelowFill(b, i, O, 9);
          board[i] := O;
          var v := Minimax(board, 0, false);
          board[i] := E;
          assert board[..] == b;
          AiStep(b, i, bestVal, k, move, v);
          if v > bestVal {
            bestVal, move := v, i;
            k := |EmptiesBelow(b, i)|;
          }
        } else {
          AiSkip(b, i, bestVal, k, move);
        }
        i := i + 1;
      }
      AiResult(b, bestVal, k, move);
    }
  }
}

/**
 * The adversarial search shared by the game AIs.  A game is given by its
 * move generator, its move application (on a copy), its terminal test and
 * its leaf score; the differences between the five hand-written searches
 * (what a node without moves is worth, the sentinels the loops start from,
 * which of several equally good moves is kept) are explicit parameters.
 *
 * Minimax is the specification.  AlphaBeta is the imperative search with
 * cut-offs, proved fail-soft with respect to Minimax (so it returns exactly
 * the minimax value whenever that value lies inside the window, and always
 * with the full (-inf, +inf) window).  PlainMinimax is the search without
 * cut-offs that keeps the last of several equal moves; RootChoice is the
 * root loop that searches every child with a fresh window.
 */
module Search {
  import opened Options

  /** A search score; the sources use float('inf') and -float('inf') as sentinels. */
  datatype Value = NegInf | Fin(n: int) | PosInf

  predicate Le(a: Value, b: Value) {
    a.NegInf? || b.PosInf? || (a.Fin? && b.Fin? && a.n <= b.n)
  }

  predicate Lt(a: Value, b: Value) { !Le(b, a) }

  function Max(a: Value, b: Value): Value { if Le(a, b) then b else a }

  function Min(a: Value, b: Value): Value { if Le(a, b) then a else b }

  /** `b` is at least as good as `a` for the maximizing (or the minimizing) side. */
  predicate Good(maxing: bool, a: Value, b: Value) { if maxing then Le(a, b) else Le(b, a) }

  /** `b` is strictly better than `a` for that side. */
  predicate Beats(maxing: bool, a: Value, b: Value) { if maxing then Lt(a, b) else Lt(b, a) }

  function Better(maxing: bool, a: Value, b: Value): Value { if maxing then Max(a, b) else Min(a, b) }

  /** What a non-terminal node is worth when the side to move has no move. */
  datatype NoMovePolicy =
    | Pass        // the other side moves, one ply deeper (othello)
    | StaticEval  // the static evaluation (chess)
    | Sentinel    // the loop's initial value, -inf or +inf: the stuck side loses (checkers)
    | Draw        // zero, a full board (connect four, tic-tac-toe)

  datatype Game<!S, !M> = Game(
    moves: (S, bool) -> seq<M>,  // moves of the maximizing (true) or the minimizing side
    apply: (S, M, bool) -> S,    // the position after a move of that side, on a copy
    terminal: S -> bool,
    leaf: S -> int,              // score of a terminal node, or of any node at depth 0
    noMove: NoMovePolicy,
    bottom: Value,               // initial value of a maximizing node's loop
    top: Value)                  // initial value of a minimizing node's loop

  function Init<S, M>(g: Game<S, M>, maxing: bool): Value { if maxing then g.bottom else g.top }

  /** The best of `acc` and every element of `vals`, folded from the left. */
  function ExtremeOf(vals: seq<Value>, maxing: bool, acc: Value): Value
  {
    if vals == [] then acc else Better(maxing, ExtremeOf(vals[..|vals| - 1], maxing, acc), vals[|vals| - 1])
  }

  /** Minimax value of `s` searched `depth` plies deep, without pruning. */
  function Minimax<S, M>(g: Game<S, M>, s: S, depth: nat, maxing: bool): Value
    decreases depth, 1
  {
    if depth == 0 || g.terminal(s) then Fin(g.leaf(s))
    else if |g.moves(s, maxing)| == 0 then
      match g.noMove
      case Pass => Minimax(g, s, depth - 1, !maxing)
      case StaticEval => Fin(g.leaf(s))
      case Sentinel => Init(g, maxing)
      case Draw => Fin(0)
    else ExtremeOf(ChildValues(g, s, depth, maxing), maxing, Init(g, maxing))
  }

  /** The minimax values of the children of `s`, in move order. */
  function ChildValues<S, M>(g: Game<S, M>, s: S, depth: nat, maxing: bool): (vals: seq<Value>)
    requires depth > 0
    ensures |vals| == |g.moves(s, maxing)|
    decreases depth, 0
  {
    var ms := g.moves(s, maxing);
    seq(|ms|, i requires 0 <= i < |ms| => Minimax(g, g.apply(s, ms[i], maxing), depth - 1, !maxing))
  }

  // ---------------------------------------------------------------------
  // Tie-breaks

  /** How an AI picks among several moves of the best value. */
  datatype TieBreak = FirstStrict | LastEqual | Uniform(pick: nat)

  predicate IsBest(vals: seq<Value>, maxing: bool, k: int) {
    0 <= k < |vals| && forall j :: 0 <= j < |vals| ==> Good(maxing, vals[j], vals[k])
  }

  /** `vals[k]` is a best value and no earlier value equals it. */
  predicate FirstBest(vals: seq<Value>, maxing: bool, k: int) {
    IsBest(vals, maxing, k) && forall j :: 0 <= j < k ==> vals[j] != vals[k]
  }

  /** `vals[k]` is a best value and no later value equals it. */
  predicate LastBest(vals: seq<Value>, maxing: bool, k: int) {
    IsBest(vals, maxing, k) && forall j :: k < j < |vals| ==> vals[j] != vals[k]
  }

  /** The positions holding `x`, in increasing order. */
  function Indices(vals: seq<Value>, x: Value): (r: seq<nat>)
    ensures forall i :: 0 <= i < |r| ==> r[i] < |vals| && vals[r[i]] == x
    ensures forall j :: 0 <= j < |vals| && vals[j] == x ==> j in r
    ensures forall i, i' :: 0 <= i < i' < |r| ==> r[i] < r[i']
  {
    if vals == [] then []
    else Indices(vals[..|vals| - 1], x) + (if vals[|vals| - 1] == x then [|vals| - 1] else [])
  }

  lemma {:induction false} ExtremeOfBounds(vals: seq<Value>, maxing: bool, acc: Value)
    ensures Good(maxing, acc, ExtremeOf(vals, maxing, acc))
    ensures forall j :: 0 <= j < |vals| ==> Good(maxing, vals[j], ExtremeOf(vals, maxing, acc))
    ensures ExtremeOf(vals, maxing, acc) == acc || ExtremeOf(vals, maxing, acc) in vals
  {
    if vals != [] {
      var p := vals[..|vals| - 1];
      ExtremeOfBounds(p, maxing, acc);
      assert forall j :: 0 <= j < |p| ==> vals[j] == p[j];
    }
  }

  /** Folding more values in never makes the result worse. */
  lemma {:induction false} ExtremeOfPrefix(vals: seq<Value>, i: nat, maxing: bool, acc: Value)
    requires i <= |vals|
    ensures Good(maxing, ExtremeOf(vals[..i], maxing, acc), ExtremeOf(vals, maxing, acc))
  {
    if i < |vals| {
      var p := vals[..|vals| - 1];
      ExtremeOfPrefix(p, i, maxing, acc);
      assert p[..i] == vals[..i];
    } else {
      assert vals[..i] == vals;
    }
  }

  /**
   * With finite leaves and no infinite sentinel reachable, every minimax
   * value is finite: the fold over a non-empty list of finite children
   * can never stay at an infinite initial value.
   */
  lemma {:induction false} MinimaxFin<S, M>(g: Game<S, M>, s: S, depth: nat, maxing: bool)
    requires g.noMove != Sentinel && g.bottom != PosInf && g.top != NegInf
    ensures Minimax(g, s, depth, maxing).Fin?
    decreases depth
  {
    if depth == 0 || g.terminal(s) {
    } else if |g.moves(s, maxing)| == 0 {
      if g.noMove == Pass {
        MinimaxFin(g, s, depth - 1, !maxing);
      }
    } else {
      var ms := g.moves(s, maxing);
      var vals := ChildValues(g, s, depth, maxing);
      forall i | 0 <= i < |vals| ensures vals[i].Fin? {
        MinimaxFin(g, g.apply(s, ms[i], maxing), depth - 1, !maxing);
      }
      ExtremeOfBounds(vals, maxing, Init(g, maxing));
      assert Good(maxing, vals[0], ExtremeOf(vals, maxing, Init(g, maxing)));
    }
  }

  /** A finite element beats an infinitely bad initial value. */
  lemma FiniteBeatsWorst(vals: seq<Value>, maxing: bool)
    requires |vals| > 0 && vals[0].Fin?
    ensures Beats(maxing, if maxing then NegInf else PosInf, ExtremeOf(vals, maxing, if maxing then NegInf else PosInf))
  {
    ExtremeOfBounds(vals, maxing, if maxing then NegInf else PosInf);
  }

  lemma ExtremeOfAttained(vals: seq<Value>, maxing: bool, acc: Value)
    requires |vals| > 0 && Beats(maxing, acc, vals[0])
    ensures ExtremeOf(vals, maxing, acc) in vals
    ensures ExtremeOf(vals, maxing, acc) == ExtremeOf(vals, maxing, vals[0])
  {
    ExtremeOfBounds(vals, maxing, acc);
    ExtremeOfBounds(vals, maxing, vals[0]);
  }

  /** With an initial value no better than any element, the fold is the best element. */
  lemma ExtremeOfSentinel(vals: seq<Value>, maxing: bool, acc: Value)
    requires |vals| > 0 && (Beats(maxing, acc, ExtremeOf(vals, maxing, acc)) || acc == vals[0])
    ensures ExtremeOf(vals, maxing, acc) == ExtremeOf(vals, maxing, vals[0])
  {
    ExtremeOfBounds(vals, maxing, acc);
    ExtremeOfBounds(vals, maxing, vals[0]);
  }

  /** The positions of the best value are all best, and there is at least one. */
  lemma {:induction false} BestIndices(vals: seq<Value>, maxing: bool)
    requires |vals| > 0
    ensures |Indices(vals, ExtremeOf(vals, maxing, vals[0]))| > 0
    ensures forall i :: 0 <= i < |Indices(vals, ExtremeOf(vals, maxing, vals[0]))| ==>
      IsBest(vals, maxing, Indices(vals, ExtremeOf(vals, maxing, vals[0]))[i])
  {
    var x := ExtremeOf(vals, maxing, vals[0]);
    ExtremeOfBounds(vals, maxing, vals[0]);
    var c := Indices(vals, x);
    var j :| 0 <= j < |vals| && vals[j] == x;
    assert j in c;
  }

  /** The positions of a value are increasing, so none lies before the first or after the last. */
  lemma IndicesEnds(vals: seq<Value>, x: Value)
    requires |Indices(vals, x)| > 0
    ensures forall j :: 0 <= j < Indices(vals, x)[0] ==> vals[j] != x
    ensures forall j :: Indices(vals, x)[|Indices(vals, x)| - 1] < j < |vals| ==> vals[j] != x
  {
    var c := Indices(vals, x);
    forall j | 0 <= j < c[0] ensures j !in c {
      forall i | 0 <= i < |c| ensures c[i] != j {
        assert i == 0 || c[0] < c[i];
      }
    }
    forall j | c[|c| - 1] < j < |vals| ensures j !in c {
      forall i | 0 <= i < |c| ensures c[i] != j {
        assert i == |c| - 1 || c[i] < c[|c| - 1];
      }
    }
  }

  /**
   * The index an AI keeps under each tie-break: the first, the last, or
   * the `pick`-th (cyclically) of the positions holding the best value.
   */
  function Choose(vals: seq<Value>, maxing: bool, tb: TieBreak): (k: nat)
    requires |vals| > 0
    ensures IsBest(vals, maxing, k)
    ensures tb.FirstStrict? ==> FirstBest(vals, maxing, k)
    ensures tb.LastEqual? ==> LastBest(vals, maxing, k)
  {
    BestIndices(vals, maxing);
    IndicesEnds(vals, ExtremeOf(vals, maxing, vals[0]));
    var c := Indices(vals, ExtremeOf(vals, maxing, vals[0]));
    match tb
    case FirstStrict => c[0]
    case LastEqual => c[|c| - 1]
    case Uniform(p) => c[p % |c|]
  }

  lemma FirstBestUnique(vals: seq<Value>, maxing: bool, k: int, k': int)
    requires FirstBest(vals, maxing, k) && FirstBest(vals, maxing, k')
    ensures k == k'
  {
    assert vals[k] == vals[k'];
  }

  lemma LastBestUnique(vals: seq<Value>, maxing: bool, k: int, k': int)
    requires LastBest(vals, maxing, k) && LastBest(vals, maxing, k')
    ensures k == k'
  {
    assert vals[k] == vals[k'];
  }

  /** A best position holds the best value. */
  lemma BestHoldsExtreme(vals: seq<Value>, maxing: bool, k: nat)
    requires |vals| > 0 && IsBest(vals, maxing, k)
    ensures vals[k] == ExtremeOf(vals, maxing, vals[0])
  {
    ExtremeOfBounds(vals, maxing, vals[0]);
    var x := ExtremeOf(vals, maxing, vals[0]);
    if x != vals[0] {
      var j :| 0 <= j < |vals| && vals[j] == x;
    }
  }

  /** The uniform pick that lands on a given best position. */
  lemma UniformPickOf(vals: seq<Value>, maxing: bool, k: nat) returns (p: nat)
    requires |vals| > 0 && IsBest(vals, maxing, k)
    ensures Choose(vals, maxing, Uniform(p)) == k
  {
    BestHoldsExtreme(vals, maxing, k);
    var c := Indices(vals, ExtremeOf(vals, maxing, vals[0]));
    assert k in c;
    p := PositionIn(c, k);
    assert Choose(vals, maxing, Uniform(p)) == c[p % |c|];
  }

  lemma PositionIn(c: seq<nat>, k: nat) returns (p: nat)
    requires k in c
    ensures p < |c| && c[p % |c|] == k
  {
    p :| 0 <= p < |c| && c[p] == k;
    assert p % |c| == p;
  }

  /** Every best position is chosen by some uniform pick, and no other is. */
  lemma UniformReachesEveryBest(vals: seq<Value>, maxing: bool, k: nat)
    requires |vals| > 0
    ensures IsBest(vals, maxing, k) <==> exists p: nat :: Choose(vals, maxing, Uniform(p)) == k
  {
    if IsBest(vals, maxing, k) {
      var p := UniformPickOf(vals, maxing, k);
    }
  }

  // ---------------------------------------------------------------------
  // Alpha-beta

  predicate InWindow(alpha: Value, m: Value, beta: Value) { Lt(alpha, m) && Lt(m, beta) }

  /**
   * `v` approximates the true value `m` the way a fail-soft alpha-beta
   * search does: exact inside the window, and on the same side of it
   * (between the bound and `m`) outside.
   */
  predicate FailSoft(v: Value, m: Value, alpha: Value, beta: Value) {
    (Le(v, alpha) ==> Le(m, v)) && (Le(beta, v) ==> Le(v, m)) && (InWindow(alpha, v, beta) ==> v == m)
  }

  /** The value is exact when the true value is inside the window, or the window is (-inf, +inf). */
  lemma FailSoftExact(v: Value, m: Value, alpha: Value, beta: Value)
    requires Lt(alpha, beta) && FailSoft(v, m, alpha, beta)
    requires InWindow(alpha, m, beta) || (alpha == NegInf && beta == PosInf)
    ensures v == m
  {
  }

  lemma MaxStep(alpha: Value, beta: Value, v: Value, t: Value, cv: Value, m: Value)
    requires Lt(Max(alpha, v), beta)
    requires FailSoft(v, t, alpha, beta) && FailSoft(cv, m, Max(alpha, v), beta)
    ensures FailSoft(Max(v, cv), Max(t, m), alpha, beta)
    ensures InWindow(alpha, Max(t, m), beta) ==> (Lt(v, cv) <==> Lt(t, m)) && (Lt(t, m) ==> cv == m)
  {
  }

  lemma MinStep(alpha: Value, beta: Value, v: Value, t: Value, cv: Value, m: Value)
    requires Lt(alpha, Min(beta, v))
    requires FailSoft(v, t, alpha, beta) && FailSoft(cv, m, alpha, Min(beta, v))
    ensures FailSoft(Min(v, cv), Min(t, m), alpha, beta)
    ensures InWindow(alpha, Min(t, m), beta) ==> (Lt(cv, v) <==> Lt(m, t)) && (Lt(m, t) ==> cv == m)
  {
  }

  /** Folding one more finite value into a finite running extreme, written on integers. */
  lemma FoldFin(vals: seq<Value>, maxing: bool, init: Value, k: nat, best: int, v: int)
    requires k < |vals| && vals[k] == Fin(v)
    requires Fin(best) == ExtremeOf(vals[..k], maxing, init)
    ensures Fin(if maxing then (if best <= v then v else best) else (if best <= v then best else v))
      == ExtremeOf(vals[..k + 1], maxing, init)
  {
    assert vals[..k + 1][..k] == vals[..k];
  }

  /** One iteration of a maximizing node's loop keeps its invariant. */
  lemma MaxLoopStep(vals: seq<Value>, i: nat, bottom: Value, alpha: Value, beta: Value, v: Value, best: nat, cv: Value)
    requires i < |vals| && best < |vals|
    requires Lt(Max(alpha, v), beta)
    requires FailSoft(v, ExtremeOf(vals[..i], true, bottom), alpha, beta)
    requires InWindow(alpha, ExtremeOf(vals[..i], true, bottom), beta) ==>
      FirstBest(vals[..i], true, best) && vals[best] == ExtremeOf(vals[..i], true, bottom)
    requires FailSoft(cv, vals[i], Max(alpha, v), beta)
    ensures var v', best' := (if Lt(v, cv) then cv else v), (if Lt(v, cv) then i else best);
      Max(Max(alpha, v), v') == Max(alpha, v') &&
      FailSoft(v', ExtremeOf(vals[..i + 1], true, bottom), alpha, beta) &&
      (InWindow(alpha, ExtremeOf(vals[..i + 1], true, bottom), beta) ==>
        FirstBest(vals[..i + 1], true, best') && vals[best'] == ExtremeOf(vals[..i + 1], true, bottom))
  {
    var t := ExtremeOf(vals[..i], true, bottom);
    assert vals[..i + 1][..i] == vals[..i];
    assert ExtremeOf(vals[..i + 1], true, bottom) == Max(t, vals[i]);
    MaxStep(alpha, beta, v, t, cv, vals[i]);
    ExtremeOfBounds(vals[..i], true, bottom);
  }

  /** One iteration of a minimizing node's loop keeps its invariant. */
  lemma MinLoopStep(vals: seq<Value>, i: nat, top: Value, alpha: Value, beta: Value, v: Value, best: nat, cv: Value)
    requires i < |vals| && best < |vals|
    requires Lt(alpha, Min(beta, v))
    requires FailSoft(v, ExtremeOf(vals[..i], false, top), alpha, beta)
    requires InWindow(alpha, ExtremeOf(vals[..i], false, top), beta) ==>
      FirstBest(vals[..i], false, best) && vals[best] == ExtremeOf(vals[..i], false, top)
    requires FailSoft(cv, vals[i], alpha, Min(beta, v))
    ensures var v', best' := (if Lt(cv, v) then cv else v), (if Lt(cv, v) then i else best);
      Min(Min(beta, v), v') == Min(beta, v') &&
      FailSoft(v', ExtremeOf(vals[..i + 1], false, top), alpha, beta) &&
      (InWindow(alpha, ExtremeOf(vals[..i + 1], false, top), beta) ==>
        FirstBest(vals[..i + 1], false, best') && vals[best'] == ExtremeOf(vals[..i + 1], false, top))
  {
    var t := ExtremeOf(vals[..i], false, top);
    assert vals[..i + 1][..i] == vals[..i];
    assert ExtremeOf(vals[..i + 1], false, top) == Min(t, vals[i]);
    MinStep(alpha, beta, v, t, cv, vals[i]);
    ExtremeOfBounds(vals[..i], false, top);
  }

  /**
   * Depth-limited alpha-beta: a node's loop starts from the game's
   * sentinel, keeps the first child with a strictly better value, raises
   * alpha (or lowers beta) to the value so far and stops once
   * alpha >= beta.  `pick` stands for the random first guess of the move.
   */
  method AlphaBeta<S, M>(g: Game<S, M>, s: S, depth: nat, alpha: Value, beta: Value, maxing: bool, pick: nat)
    returns (v: Value, best: Option<nat>)
    requires Lt(alpha, beta) && Le(g.bottom, alpha) && Le(beta, g.top)
    ensures FailSoft(v, Minimax(g, s, depth, maxing), alpha, beta)
    ensures best.Some? <==> depth > 0 && !g.terminal(s) && |g.moves(s, maxing)| > 0
    ensures best.Some? ==> best.value < |g.moves(s, maxing)|
    ensures best.Some? && InWindow(alpha, Minimax(g, s, depth, maxing), beta) ==>
      best.value == Choose(ChildValues(g, s, depth, maxing), maxing, FirstStrict)
    decreases depth, 1
  {
    if depth == 0 || g.terminal(s) {
      return Fin(g.leaf(s)), None;
    }
    var ms := g.moves(s, maxing);
    if |ms| == 0 {
      best := None;
      match g.noMove {
        case Pass => var pv, _ := AlphaBeta(g, s, depth - 1, alpha, beta, !maxing, pick); v := pv;
        case StaticEval => v := Fin(g.leaf(s));
        case Sentinel => v := Init(g, maxing);
        case Draw => v := Fin(0);
      }
    } else if maxing {
      var k;
      v, k := MaxNode(g, s, depth, alpha, beta, pick);
      best := Some(k);
    } else {
      var k;
      v, k := MinNode(g, s, depth, alpha, beta, pick);
      best := Some(k);
    }
  }

  method MaxNode<S, M>(g: Game<S, M>, s: S, depth: nat, alpha: Value, beta: Value, pick: nat)
    returns (v: Value, best: nat)
    requires depth > 0 && |g.moves(s, true)| > 0
    requires Lt(alpha, beta) && Le(g.bottom, alpha) && Le(beta, g.top)
    ensures best < |g.moves(s, true)|
    ensures FailSoft(v, ExtremeOf(ChildValues(g, s, depth, true), true, g.bottom), alpha, beta)
    ensures InWindow(alpha, ExtremeOf(ChildValues(g, s, depth, true), true, g.bottom), beta) ==>
      best == Choose(ChildValues(g, s, depth, true), true, FirstStrict)
    decreases depth, 0
  {
    var ms := g.moves(s, true);
    ghost var vals := ChildValues(g, s, depth, true);
    var a := alpha;
    v, best := g.bottom, pick % |ms|;
    var i := 0;
    while i < |ms| && Lt(a, beta)
      invariant 0 <= i <= |ms| && best < |ms|
      invariant a == Max(alpha, v)
      invariant FailSoft(v, ExtremeOf(vals[..i], true, g.bottom), alpha, beta)
      invariant InWindow(alpha, ExtremeOf(vals[..i], true, g.bottom), beta) ==>
        FirstBest(vals[..i], true, best) && vals[best] == ExtremeOf(vals[..i], true, g.bottom)
      decreases |ms| - i
    {
      var cv, _ := AlphaBeta(g, g.apply(s, ms[i], true), depth - 1, a, beta, false, pick);
      assert vals[i] == Minimax(g, g.apply(s, ms[i], true), depth - 1, false);
      MaxLoopStep(vals, i, g.bottom, alpha, beta, v, best, cv);
      if Lt(v, cv) {
        v, best := cv, i;
      }
      a := Max(a, v);
      i := i + 1;
    }
    if i < |ms| {
      ExtremeOfPrefix(vals, i, true, g.bottom);
    } else {
      assert vals[..i] == vals;
    }
    if InWindow(alpha, ExtremeOf(vals, true, g.bottom), beta) {
      FirstBestUnique(vals, true, best, Choose(vals, true, FirstStrict));
    }
  }

  method MinNode<S, M>(g: Game<S, M>, s: S, depth: nat, alpha: Value, beta: Value, pick: nat)
    returns (v: Value, best: nat)
    requires depth > 0 && |g.moves(s, false)| > 0
    requires Lt(alpha, beta) && Le(g.bottom, alpha) && Le(beta, g.top)
    ensures best < |g.moves(s, false)|
    ensures FailSoft(v, ExtremeOf(ChildValues(g, s, depth, false), false, g.top), alpha, beta)
    ensures InWindow(alpha, ExtremeOf(ChildValues(g, s, depth, false), false, g.top), beta) ==>
      best == Choose(ChildValues(g, s, depth, false), false, FirstStrict)
    decreases depth, 0
  {
    var ms := g.moves(s, false);
    ghost var vals := ChildValues(g, s, depth, false);
    var b := beta;
    v, best := g.top, pick % |ms|;
    var i := 0;
    while i < |ms| && Lt(alpha, b)
      invariant 0 <= i <= |ms| && best < |ms|
      invariant b == Min(beta, v)
      invariant FailSoft(v, ExtremeOf(vals[..i], false, g.top), alpha, beta)
      invariant InWindow(alpha, ExtremeOf(vals[..i], false, g.top), beta) ==>
        FirstBest(vals[..i], false, best) && vals[best] == ExtremeOf(vals[..i], false, g.top)
      decreases |ms| - i
    {
      var cv, _ := AlphaBeta(g, g.apply(s, ms[i], false), depth - 1, alpha, b, true, pick);
      assert vals[i] == Minimax(g, g.apply(s, ms[i], false), depth - 1, true);
      MinLoopStep(vals, i, g.top, alpha, beta, v, best, cv);
      if Lt(cv, v) {
        v, best := cv, i;
      }
      b := Min(b, v);
      i := i + 1;
    }
    if i < |ms| {
      ExtremeOfPrefix(vals, i, false, g.top);
    } else {
      assert vals[..i] == vals;
    }
    if InWindow(alpha, ExtremeOf(vals, false, g.top), beta) {
      FirstBestUnique(vals, false, best, Choose(vals, false, FirstStrict));
    }
  }

  /** The root call the AIs make: with the (-inf, +inf) window alpha-beta is exactly minimax. */
  method FullWindowSearch<S, M>(g: Game<S, M>, s: S, depth: nat, maxing: bool, pick: nat)
    returns (v: Value, best: Option<nat>)
    requires g.bottom == NegInf && g.top == PosInf
    ensures v == Minimax(g, s, depth, maxing)
    ensures best.Some? <==> depth > 0 && !g.terminal(s) && |g.moves(s, maxing)| > 0
    ensures best.Some? && v.Fin? ==> best.value == Choose(ChildValues(g, s, depth, maxing), maxing, FirstStrict)
  {
    v, best := AlphaBeta(g, s, depth, NegInf, PosInf, maxing, pick);
    FailSoftExact(v, Minimax(g, s, depth, maxing), NegInf, PosInf);
  }

  // ---------------------------------------------------------------------
  // Minimax without cut-offs, keeping the last equal move

  /** One iteration of the plain loop: an equal or better child becomes the kept move. */
  lemma PlainStep(vals: seq<Value>, i: nat, maxing: bool, v: Value, best: Option<nat>, cv: Value)
    requires i < |vals| && cv == vals[i]
    requires v == ExtremeOf(vals[..i], maxing, if maxing then NegInf else PosInf)
    requires best.None? <==> i == 0
    requires best.Some? ==> LastBest(vals[..i], maxing, best.value) && vals[best.value] == v
    ensures var v', best' := Better(maxing, v, cv), if Better(maxing, v, cv) == cv then Some(i) else best;
      v' == ExtremeOf(vals[..i + 1], maxing, if maxing then NegInf else PosInf) &&
      best'.Some? && LastBest(vals[..i + 1], maxing, best'.value) && vals[best'.value] == v'
  {
    assert vals[..i + 1][..i] == vals[..i];
    ExtremeOfBounds(vals[..i], maxing, if maxing then NegInf else PosInf);
  }

  /**
   * Plain minimax over copies with -inf/+inf initial values; a child
   * whose value equals the running best replaces the kept move, so the
   * last of several equal moves is returned.
   */
  method PlainMinimax<S, M>(g: Game<S, M>, s: S, depth: nat, maxing: bool) returns (v: Value, best: Option<nat>)
    requires g.bottom == NegInf && g.top == PosInf
    ensures v == Minimax(g, s, depth, maxing)
    ensures best.Some? <==> depth > 0 && !g.terminal(s) && |g.moves(s, maxing)| > 0
    ensures best.Some? ==> best.value == Choose(ChildValues(g, s, depth, maxing), maxing, LastEqual)
    decreases depth
  {
    if depth == 0 || g.terminal(s) {
      return Fin(g.leaf(s)), None;
    }
    var ms := g.moves(s, maxing);
    if |ms| == 0 {
      best := None;
      match g.noMove {
        case Pass => var pv, _ := PlainMinimax(g, s, depth - 1, !maxing); v := pv;
        case StaticEval => v := Fin(g.leaf(s));
        case Sentinel => v := Init(g, maxing);
        case Draw => v := Fin(0);
      }
      return;
    }
    ghost var vals := ChildValues(g, s, depth, maxing);
    v, best := Init(g, maxing), None;
    var i := 0;
    while i < |ms|
      invariant 0 <= i <= |ms|
      invariant v == ExtremeOf(vals[..i], maxing, Init(g, maxing))
      invariant best.None? <==> i == 0
      invariant best.Some? ==> LastBest(vals[..i], maxing, best.value) && vals[best.value] == v
    {
      var cv, _ := PlainMinimax(g, g.apply(s, ms[i], maxing), depth - 1, !maxing);
      PlainStep(vals, i, maxing, v, best, cv);
      v := Better(maxing, v, cv);
      if v == cv {
        best := Some(i);
      }
      i := i + 1;
    }
    assert vals[..i] == vals;
    assert best.Some?;
    LastBestUnique(vals, maxing, best.value, Choose(vals, maxing, LastEqual));
  }

  // ---------------------------------------------------------------------
  // The root loop of get_best_move

  predicate AllInWindow(alpha: Value, vals: seq<Value>, beta: Value) {
    forall j :: 0 <= j < |vals| ==> InWindow(alpha, vals[j], beta)
  }

  /** One iteration of the root loop keeps its invariant. */
  lemma RootStep(vals: seq<Value>, i: nat, maxing: bool, init: Value, bestVal: Value, k: nat, fallback: nat)
    requires i < |vals| && k < |vals|
    requires bestVal == ExtremeOf(vals[..i], maxing, init)
    requires if Beats(maxing, init, bestVal) then FirstBest(vals[..i], maxing, k) && vals[k] == bestVal else k == fallback
    ensures var b', k' := (if Beats(maxing, bestVal, vals[i]) then vals[i] else bestVal),
                          (if Beats(maxing, bestVal, vals[i]) then i else k);
      b' == ExtremeOf(vals[..i + 1], maxing, init) &&
      if Beats(maxing, init, b') then FirstBest(vals[..i + 1], maxing, k') && vals[k'] == b' else k' == fallback
  {
    assert vals[..i + 1][..i] == vals[..i];
    ExtremeOfBounds(vals[..i], maxing, init);
  }

  /**
   * Searches each child with the same fresh window and keeps the first
   * child strictly better than everything before it, starting from
   * `init`; `pick` stands for the random first guess.
   */
  method RootChoice<S, M>(g: Game<S, M>, s: S, depth: nat, alpha: Value, beta: Value, maxing: bool,
                          init: Value, pick: nat)
    returns (best: Option<nat>)
    requires depth > 0
    requires Lt(alpha, beta) && Le(g.bottom, alpha) && Le(beta, g.top)
    ensures best.Some? <==> |g.moves(s, maxing)| > 0
    ensures best.Some? ==> best.value < |g.moves(s, maxing)|
    ensures best.Some? && ((alpha == NegInf && beta == PosInf) || AllInWindow(alpha, ChildValues(g, s, depth, maxing), beta)) ==>
      best.value == if Beats(maxing, init, ExtremeOf(ChildValues(g, s, depth, maxing), maxing, init))
                    then Choose(ChildValues(g, s, depth, maxing), maxing, FirstStrict)
                    else pick % |g.moves(s, maxing)|
  {
    var ms := g.moves(s, maxing);
    if |ms| == 0 {
      return None;
    }
    ghost var vals := ChildValues(g, s, depth, maxing);
    ghost var exact := (alpha == NegInf && beta == PosInf) || AllInWindow(alpha, vals, beta);
    assert vals[..0] == [];
    var bestVal: Value, k: nat := init, pick % |ms|;
    var i := 0;
    while i < |ms|
      invariant 0 <= i <= |ms| && k < |ms|
      invariant exact ==> bestVal == ExtremeOf(vals[..i], maxing, init)
      invariant exact ==> if Beats(maxing, init, bestVal) then FirstBest(vals[..i], maxing, k) && vals[k] == bestVal
                          else k == pick % |ms|
    {
      var cv, _ := AlphaBeta(g, g.apply(s, ms[i], maxing), depth - 1, alpha, beta, !maxing, pick);
      assert vals[..i + 1][..i] == vals[..i];
      if exact {
        assert vals[i] == Minimax(g, g.apply(s, ms[i], maxing), depth - 1, !maxing);
        FailSoftExact(cv, vals[i], alpha, beta);
        RootStep(vals, i, maxing, init, bestVal, k, pick % |ms|);
      }
      if Beats(maxing, bestVal, cv) {
        bestVal, k := cv, i;
      }
      i := i + 1;
    }
    assert vals[..i] == vals;
    if exact && Beats(maxing, init, ExtremeOf(vals, maxing, init)) {
      FirstBestUnique(vals, maxing, k, Choose(vals, maxing, FirstStrict));
    }
    best := Some(k);
  }
}

/**
 * The rules of go on a 9x9 grid, as values: points and their orthogonal
 * neighbours, connected groups, liberties, captures, and area scoring.
 * The board object that plays them lives in module Go.
 */
module GoGrid {
  const N := 9

  // What a point holds.
  const EmptyPoint := 0
  const BStone := 1
  const WStone := 2

  type Cell = x: int | 0 <= x <= 2

  type Grid = g: seq<seq<Cell>> | |g| == N && forall i :: 0 <= i < N ==> |g[i]| == N
    witness seq(9, _ => seq(9, _ => 0))

  type Point = (int, int)

  predicate OnBoard(p: Point) { 0 <= p.0 < N && 0 <= p.1 < N }

  function At(g: Grid, p: Point): Cell
    requires OnBoard(p)
  {
    g[p.0][p.1]
  }

  /** The grid with `p` set to `v`. */
  function SetAt(g: Grid, p: Point, v: Cell): (h: Grid)
    requires OnBoard(p)
    ensures forall q :: OnBoard(q) ==> At(h, q) == if q == p then v else At(g, q)
  {
    var row: seq<Cell> := g[p.0][p.1 := v];
    g[p.0 := row]
  }

  function EmptyGrid(): Grid { seq(N, _ => seq(N, _ => EmptyPoint)) }

  /** The other colour; anything but black counts as white's opponent black. */
  function Opponent(color: Cell): Cell { if color == BStone then WStone else BStone }

  function AllPoints(): set<Point> { set r, c | 0 <= r < N && 0 <= c < N :: (r, c) }

  lemma AllPointsOnBoard(p: Point)
    ensures p in AllPoints() <==> OnBoard(p)
  {
    if OnBoard(p) {
      var r, c := p.0, p.1;
      assert (r, c) in AllPoints();
    }
  }

  // ---------------------------------------------------------------------
  // Neighbours

  /** The four directions, in the order the board scans them: up, down, left, right. */
  const Dirs: seq<(int, int)> := [(-1, 0), (1, 0), (0, -1), (0, 1)]

  function Step(p: Point, k: nat): Point
    requires k < 4
  {
    (p.0 + Dirs[k].0, p.1 + Dirs[k].1)
  }

  predicate Adjacent(p: Point, q: Point) {
    (p.0 == q.0 && (p.1 == q.1 + 1 || p.1 + 1 == q.1)) ||
    (p.1 == q.1 && (p.0 == q.0 + 1 || p.0 + 1 == q.0))
  }

  /** The neighbours of `p` in the first `k` directions that lie on the board and hold `v`. */
  function Matching(g: Grid, p: Point, v: Cell, k: nat): seq<Point>
    requires k <= 4
  {
    if k == 0 then []
    else
      var n := Step(p, k - 1);
      Matching(g, p, v, k - 1) + (if OnBoard(n) && At(g, n) == v then [n] else [])
  }

  /** The matching neighbours are exactly the adjacent points on the board holding `v`. */
  lemma MatchingIn(g: Grid, p: Point, v: Cell, n: Point)
    ensures n in Matching(g, p, v, 4) <==> OnBoard(n) && Adjacent(p, n) && At(g, n) == v
  {
    assert Matching(g, p, v, 4) == Matching(g, p, v, 3) + (if OnBoard(Step(p, 3)) && At(g, Step(p, 3)) == v then [Step(p, 3)] else []);
    assert Matching(g, p, v, 3) == Matching(g, p, v, 2) + (if OnBoard(Step(p, 2)) && At(g, Step(p, 2)) == v then [Step(p, 2)] else []);
    assert Matching(g, p, v, 2) == Matching(g, p, v, 1) + (if OnBoard(Step(p, 1)) && At(g, Step(p, 1)) == v then [Step(p, 1)] else []);
    assert Matching(g, p, v, 1) == (if OnBoard(Step(p, 0)) && At(g, Step(p, 0)) == v then [Step(p, 0)] else []);
  }

  // ---------------------------------------------------------------------
  // Connectivity

  /** A walk of orthogonal steps over points that all hold what its first point holds. */
  ghost predicate Linked(g: Grid, path: seq<Point>) {
    |path| > 0 && OnBoard(path[0]) &&
    (forall i :: 0 <= i < |path| ==> OnBoard(path[i]) && At(g, path[i]) == At(g, path[0])) &&
    (forall i, j :: 0 <= i && j == i + 1 && j < |path| ==> Adjacent(path[i], path[j]))
  }

  ghost predicate Connected(g: Grid, p: Point, q: Point) {
    exists path :: Linked(g, path) && path[0] == p && path[|path| - 1] == q
  }

  /** The points connected to `p` through points holding what `p` holds. */
  ghost function Component(g: Grid, p: Point): set<Point> {
    set q | q in AllPoints() && Connected(g, p, q)
  }

  /** get_group's result: nothing for an empty point, else the stones connected to it. */
  ghost function Group(g: Grid, p: Point): set<Point>
    requires OnBoard(p)
  {
    if At(g, p) == EmptyPoint then {} else Component(g, p)
  }

  lemma ConnectedEnds(g: Grid, p: Point, q: Point)
    requires Connected(g, p, q)
    ensures OnBoard(p) && OnBoard(q) && At(g, q) == At(g, p)
  {
    var path :| Linked(g, path) && path[0] == p && path[|path| - 1] == q;
    assert OnBoard(path[|path| - 1]);
  }

  lemma ConnectedRefl(g: Grid, p: Point)
    requires OnBoard(p)
    ensures Connected(g, p, p) && p in Component(g, p)
  {
    assert Linked(g, [p]);
    AllPointsOnBoard(p);
  }

  lemma ConnectedStep(g: Grid, p: Point, q: Point, n: Point)
    requires Connected(g, p, q) && OnBoard(q) && n in Matching(g, q, At(g, q), 4)
    ensures Connected(g, p, n)
  {
    MatchingIn(g, q, At(g, q), n);
    var path :| Linked(g, path) && path[0] == p && path[|path| - 1] == q;
    Extend(g, path, n);
  }

  lemma Extend(g: Grid, path: seq<Point>, n: Point)
    requires Linked(g, path) && OnBoard(n) && Adjacent(path[|path| - 1], n) && At(g, n) == At(g, path[|path| - 1])
    ensures Linked(g, path + [n])
  {
    var longer := path + [n];
    assert forall i :: 0 <= i < |path| ==> longer[i] == path[i];
  }

  function Reverse<T>(s: seq<T>): (r: seq<T>)
    ensures |r| == |s| && forall i :: 0 <= i < |s| ==> r[i] == s[|s| - 1 - i]
  {
    seq(|s|, i requires 0 <= i < |s| => s[|s| - 1 - i])
  }

  lemma ConnectedSym(g: Grid, p: Point, q: Point)
    requires Connected(g, p, q)
    ensures Connected(g, q, p)
  {
    var path :| Linked(g, path) && path[0] == p && path[|path| - 1] == q;
    var back := Reverse(path);
    assert At(g, back[0]) == At(g, path[0]);
    assert Linked(g, back);
  }

  lemma ConnectedTrans(g: Grid, p: Point, q: Point, s: Point)
    requires Connected(g, p, q) && Connected(g, q, s)
    ensures Connected(g, p, s)
  {
    var a :| Linked(g, a) && a[0] == p && a[|a| - 1] == q;
    var b :| Linked(g, b) && b[0] == q && b[|b| - 1] == s;
    var ab := a + b[1..];
    assert At(g, b[0]) == At(g, a[0]);
    assert forall i :: |a| <= i < |ab| ==> ab[i] == b[i - |a| + 1];
    assert Linked(g, ab);
    assert ab[|ab| - 1] == s;
  }

  /** Every member of a component leads back to the same component. */
  lemma ComponentOf(g: Grid, p: Point, q: Point)
    requires q in Component(g, p)
    ensures Component(g, q) == Component(g, p) && p in Component(g, q)
    ensures OnBoard(q) && OnBoard(p) && At(g, q) == At(g, p)
  {
    ConnectedEnds(g, p, q);
    ConnectedSym(g, p, q);
    AllPointsOnBoard(p);
    forall s | s in Component(g, q) ensures s in Component(g, p) {
      ConnectedTrans(g, p, q, s);
    }
    forall s | s in Component(g, p) ensures s in Component(g, q) {
      ConnectedTrans(g, q, p, s);
    }
  }

  lemma ComponentMembers(g: Grid, p: Point, q: Point)
    requires q in Component(g, p)
    ensures OnBoard(q) && OnBoard(p) && At(g, q) == At(g, p)
  {
    ConnectedEnds(g, p, q);
  }

  /** No neighbour holding `v` of a member of `S` lies outside `S`. */
  ghost predicate Closed(g: Grid, S: set<Point>, v: Cell) {
    forall s, n :: s in S && n in Matching(g, s, v, 4) ==> n in S
  }

  lemma {:induction false} PathInside(g: Grid, S: set<Point>, v: Cell, path: seq<Point>, i: nat)
    requires Linked(g, path) && path[0] in S && At(g, path[0]) == v && Closed(g, S, v) && i < |path|
    ensures path[i] in S
  {
    if i > 0 {
      PathInside(g, S, v, path, i - 1);
      MatchingIn(g, path[i - 1], v, path[i]);
    }
  }

  /** A closed set holding `p` holds the whole component of `p`. */
  lemma ClosedHasComponent(g: Grid, S: set<Point>, v: Cell, p: Point)
    requires p in S && OnBoard(p) && At(g, p) == v && Closed(g, S, v)
    ensures Component(g, p) <= S
  {
    forall q | q in Component(g, p) ensures q in S {
      var path :| Linked(g, path) && path[0] == p && path[|path| - 1] == q;
      PathInside(g, S, v, path, |path| - 1);
    }
  }

  /** A component is closed under its own colour. */
  lemma ComponentClosed(g: Grid, p: Point)
    requires OnBoard(p)
    ensures Closed(g, Component(g, p), At(g, p))
  {
    forall s, n | s in Component(g, p) && n in Matching(g, s, At(g, p), 4) ensures n in Component(g, p) {
      ComponentMembers(g, p, s);
      ConnectedStep(g, p, s, n);
      MatchingIn(g, s, At(g, p), n);
      AllPointsOnBoard(n);
    }
  }

  // ---------------------------------------------------------------------
  // Liberties and captures

  /** The distinct empty points next to some stone of `S`. */
  ghost function Liberties(g: Grid, S: set<Point>): set<Point> {
    set s, n | s in S && n in Matching(g, s, EmptyPoint, 4) :: n
  }

  lemma LibertiesAdd(g: Grid, A: set<Point>, s: Point)
    ensures Liberties(g, A + {s}) == Liberties(g, A) + (set n | n in Matching(g, s, EmptyPoint, 4))
  {
  }

  /** A set without liberties has no empty point next to any of its stones. */
  lemma NoLiberties(g: Grid, S: set<Point>)
    ensures Liberties(g, S) == {} <==>
      forall s, n :: s in S && OnBoard(n) && Adjacent(s, n) ==> At(g, n) != EmptyPoint
  {
    if Liberties(g, S) == {} {
      forall s, n | s in S && OnBoard(n) && Adjacent(s, n) ensures At(g, n) != EmptyPoint {
        MatchingIn(g, s, EmptyPoint, n);
        assert At(g, n) == EmptyPoint ==> n in Liberties(g, S);
      }
    } else {
      var n :| n in Liberties(g, S);
      var s :| s in S && n in Matching(g, s, EmptyPoint, 4);
      MatchingIn(g, s, EmptyPoint, n);
    }
  }

  /** The grid with every point of `S` emptied. */
  function Clear(g: Grid, S: set<Point>): (h: Grid)
    ensures forall q :: OnBoard(q) ==> At(h, q) == if q in S then EmptyPoint else At(g, q)
  {
    seq(N, i requires 0 <= i < N => seq(N, j requires 0 <= j < N => if (i, j) in S then EmptyPoint else g[i][j]))
  }

  lemma ClearAdd(g: Grid, A: set<Point>, x: Point)
    requires OnBoard(x)
    ensures Clear(g, A + {x}) == SetAt(Clear(g, A), x, EmptyPoint)
  {
    var l, r := Clear(g, A + {x}), SetAt(Clear(g, A), x, EmptyPoint);
    forall i | 0 <= i < N ensures l[i] == r[i] {
      forall j | 0 <= j < N ensures l[i][j] == r[i][j] {
        assert At(l, (i, j)) == At(r, (i, j));
      }
    }
  }

  /**
   * The capture loop around a stone on `p`: in each of the first `k`
   * directions, an opponent stone whose group (on the grid as left by the
   * earlier directions) has no liberty is removed with its group; the
   * second component counts the removed stones.
   */
  ghost function CaptureFrom(g: Grid, p: Point, opp: Cell, k: nat): (Grid, nat)
    requires k <= 4
  {
    if k == 0 then (g, 0)
    else CaptureAt(CaptureFrom(g, p, opp, k - 1), Step(p, k - 1), opp)
  }

  /** One neighbour's test: an `opp` group at `q` without a liberty is removed and counted. */
  ghost function CaptureAt(prev: (Grid, nat), q: Point, opp: Cell): (Grid, nat) {
    if OnBoard(q) && At(prev.0, q) == opp && Liberties(prev.0, Group(prev.0, q)) == {} then
      (Clear(prev.0, Group(prev.0, q)), prev.1 + |Group(prev.0, q)|)
    else prev
  }

  /** A stone of `color` put on `p`, then the captures it makes. */
  ghost function Play(g: Grid, p: Point, color: Cell): (Grid, nat)
    requires OnBoard(p)
  {
    CaptureFrom(SetAt(g, p, color), p, Opponent(color), 4)
  }

  /** is_valid_move: an empty point, a group with a liberty after the captures, and no return to the position two plies back. */
  ghost predicate Legal(g: Grid, history: seq<Grid>, p: Point, color: Cell)
    requires OnBoard(p)
  {
    var after := Play(g, p, color).0;
    At(g, p) == EmptyPoint &&
    Liberties(after, Group(after, p)) != {} &&
    !(|history| > 1 && after == history[|history| - 2])
  }

  // ---------------------------------------------------------------------
  // Counting stones

  function Stones(g: Grid, v: Cell): set<Point> {
    set q | q in AllPoints() && OnBoard(q) && At(g, q) == v
  }

  lemma StonesIn(g: Grid, v: Cell, q: Point)
    ensures q in Stones(g, v) <==> OnBoard(q) && At(g, q) == v
  {
    AllPointsOnBoard(q);
  }

  /** Emptying points of colour `v` takes exactly those points out of the stones of `v`. */
  lemma StonesClear(g: Grid, S: set<Point>, v: Cell)
    requires v != EmptyPoint && forall s :: s in S ==> OnBoard(s) && At(g, s) == v
    ensures Stones(Clear(g, S), v) == Stones(g, v) - S
    ensures |Stones(Clear(g, S), v)| + |S| == |Stones(g, v)|
    ensures forall u: Cell :: u != v && u != EmptyPoint ==> Stones(Clear(g, S), u) == Stones(g, u)
  {
    var h := Clear(g, S);
    forall q ensures q in Stones(h, v) <==> q in Stones(g, v) - S {
      StonesIn(h, v, q);
      StonesIn(g, v, q);
    }
    forall u: Cell | u != v && u != EmptyPoint ensures Stones(h, u) == Stones(g, u) {
      forall q ensures q in Stones(h, u) <==> q in Stones(g, u) {
        StonesIn(h, u, q);
        StonesIn(g, u, q);
      }
    }
    forall s | s in S ensures s in Stones(g, v) {
      StonesIn(g, v, s);
    }
    assert Stones(g, v) == Stones(h, v) + S;
  }

  /** A group holds stones of its first point's colour, all on the board. */
  lemma GroupMembers(g: Grid, p: Point)
    requires OnBoard(p)
    ensures forall s :: s in Group(g, p) ==> OnBoard(s) && At(g, s) == At(g, p) && At(g, p) != EmptyPoint
  {
    forall s | s in Group(g, p) ensures OnBoard(s) && At(g, s) == At(g, p) {
      ComponentMembers(g, p, s);
    }
  }

  /**
   * The captures remove only stones of `opp`: the stones of the other
   * colour stay where they are, and the count grows by exactly the
   * number of `opp` stones that leave the board.
   */
  lemma {:induction false} CaptureCounts(g: Grid, p: Point, opp: Cell, k: nat)
    requires k <= 4 && opp != EmptyPoint
    ensures var r := CaptureFrom(g, p, opp, k);
      |Stones(r.0, opp)| + r.1 == |Stones(g, opp)| &&
      Stones(r.0, Opponent(opp)) == Stones(g, Opponent(opp)) &&
      forall q :: OnBoard(q) && At(r.0, q) != At(g, q) ==> At(g, q) == opp && At(r.0, q) == EmptyPoint
  {
    if k > 0 {
      CaptureCounts(g, p, opp, k - 1);
      var prev := CaptureFrom(g, p, opp, k - 1);
      var q := Step(p, k - 1);
      if OnBoard(q) && At(prev.0, q) == opp && Liberties(prev.0, Group(prev.0, q)) == {} {
        GroupMembers(prev.0, q);
        StonesClear(prev.0, Group(prev.0, q), opp);
        assert Opponent(opp) != opp;
      }
    }
  }

  /**
   * place_stone's bookkeeping: after a stone of `color` (black or white)
   * is played, the mover has one more stone on the board and the
   * opponent has lost exactly the stones counted as captured.
   */
  lemma PlayCounts(g: Grid, p: Point, color: Cell)
    requires OnBoard(p) && At(g, p) == EmptyPoint && (color == BStone || color == WStone)
    ensures var r := Play(g, p, color);
      |Stones(r.0, Opponent(color))| + r.1 == |Stones(g, Opponent(color))| &&
      |Stones(r.0, color)| == |Stones(g, color)| + 1 &&
      At(r.0, p) == color
  {
    var start := SetAt(g, p, color);
    CaptureCounts(start, p, Opponent(color), 4);
    assert Opponent(Opponent(color)) == color;
    var opp := Opponent(color);
    forall q ensures q in Stones(start, opp) <==> q in Stones(g, opp) {
      StonesIn(start, opp, q);
      StonesIn(g, opp, q);
    }
    assert Stones(start, opp) == Stones(g, opp);
    forall q ensures q in Stones(start, color) <==> q in Stones(g, color) + {p} {
      StonesIn(start, color, q);
      StonesIn(g, color, q);
    }
    StonesIn(g, color, p);
    assert Stones(start, color) == Stones(g, color) + {p};
  }

  // ---------------------------------------------------------------------
  // Area scoring

  /** Some stone of `S` has a neighbour holding `v`. */
  ghost predicate Touches(g: Grid, S: set<Point>, v: Cell) {
    exists s, n :: s in S && n in Matching(g, s, v, 4)
  }

  /** An empty region belongs to `v` when it borders `v` and not the other colour. */
  ghost predicate Owned(g: Grid, region: set<Point>, v: Cell) {
    Touches(g, region, v) && !Touches(g, region, Opponent(v))
  }

  /** The empty points whose region belongs to `v`. */
  ghost function Territory(g: Grid, v: Cell): set<Point> {
    set q | q in AllPoints() && OnBoard(q) && At(g, q) == EmptyPoint && Owned(g, Component(g, q), v)
  }

  lemma TerritoryIn(g: Grid, v: Cell, q: Point)
    ensures q in Territory(g, v) <==> OnBoard(q) && At(g, q) == EmptyPoint && Owned(g, Component(g, q), v)
  {
    AllPointsOnBoard(q);
  }

  /** Area scoring: a colour's stones plus the empty points of the regions it alone borders. */
  ghost function Area(g: Grid, v: Cell): nat {
    |Stones(g, v)| + |Territory(g, v)|
  }
  /** The points of the first `k` rows. */
  function RowsBelow(k: nat): set<Point> { set r, c | 0 <= r < k && 0 <= c < N :: (r, c) }

  function RowPoints(r: int, w: nat): set<Point> { set c | 0 <= c < w :: (r, c) }

  lemma {:induction false} RowPointsCount(r: int, w: nat)
    ensures |RowPoints(r, w)| == w
  {
    if w == 0 {
      assert RowPoints(r, w) == {};
    } else {
      RowPointsCount(r, w - 1);
      assert RowPoints(r, w) == RowPoints(r, w - 1) + {(r, w - 1)};
      assert (r, w - 1) !in RowPoints(r, w - 1);
    }
  }

  lemma {:induction false} RowsBelowCount(k: nat)
    ensures |RowsBelow(k)| == k * N
  {
    if k == 0 {
      assert RowsBelow(k) == {};
    } else {
      RowsBelowCount(k - 1);
      RowPointsCount(k - 1, N);
      assert RowsBelow(k) == RowsBelow(k - 1) + RowPoints(k - 1, N);
      assert RowsBelow(k - 1) * RowPoints(k - 1, N) == {};
    }
  }

  lemma SubsetCount(a: set<Point>, b: set<Point>)
    requires a <= b
    ensures |a| <= |b|
  {
    assert b == a + (b - a);
  }

  lemma ColoursApart(g: Grid)
    ensures Stones(g, BStone) * Stones(g, WStone) == {}
    ensures Territory(g, BStone) * Territory(g, WStone) == {}
    ensures (Stones(g, BStone) + Stones(g, WStone)) * (Territory(g, BStone) + Territory(g, WStone)) == {}
  {
    forall q | q in Territory(g, BStone)
      ensures q !in Territory(g, WStone)
    {
      TerritoryIn(g, BStone, q);
      TerritoryIn(g, WStone, q);
    }
    forall q | q in Stones(g, BStone) + Stones(g, WStone)
      ensures q !in Territory(g, BStone) + Territory(g, WStone)
    {
      TerritoryIn(g, BStone, q);
      TerritoryIn(g, WStone, q);
    }
  }

  lemma OnBoardPoints(S: set<Point>)
    requires forall q :: q in S ==> OnBoard(q)
    ensures |S| <= N * N
  {
    forall q | q in S
      ensures q in RowsBelow(N)
    {
      var r, c := q.0, q.1;
      assert (r, c) in RowsBelow(N);
    }
    RowsBelowCount(N);
    SubsetCount(S, RowsBelow(N));
  }

  lemma AreasOnBoard(g: Grid)
    ensures forall q :: q in Stones(g, BStone) + Stones(g, WStone) ==> OnBoard(q)
    ensures forall q :: q in Territory(g, BStone) + Territory(g, WStone) ==> OnBoard(q)
  {
    forall q | q in Territory(g, BStone) + Territory(g, WStone)
      ensures OnBoard(q)
    {
      TerritoryIn(g, BStone, q);
      TerritoryIn(g, WStone, q);
    }
  }

  lemma FourParts(a: set<Point>, b: set<Point>, c: set<Point>, d: set<Point>)
    requires a * b == {} && c * d == {} && (a + b) * (c + d) == {}
    requires forall q :: q in a + b ==> OnBoard(q)
    requires forall q :: q in c + d ==> OnBoard(q)
    ensures |a| + |b| + |c| + |d| <= N * N
  {
    assert |a + b| == |a| + |b|;
    assert |c + d| == |c| + |d|;
    assert |(a + b) + (c + d)| == |a + b| + |c + d|;
    OnBoardPoints((a + b) + (c + d));
  }

  /**
   * Stones and single-colour regions never overlap, so the two areas
   * together never exceed the number of points on the board.
   */
  lemma AreaBound(g: Grid)
    ensures Area(g, BStone) + Area(g, WStone) <= N * N
  {
    ColoursApart(g);
    AreasOnBoard(g);
    FourParts(Stones(g, BStone), Stones(g, WStone), Territory(g, BStone), Territory(g, WStone));
  }
}

/**
 * Backgammon rules: 24 points that each hold a colour and a count, a bar
 * and an off-board tray per colour, the opening layout, moving a checker
 * (with hits and bearing off), the move generator for a roll, and the AI
 * that greedily prefers bearing off, hits and made points.
 */
module Backgammon {
  import opened Options

  // Colours, as the points store them.
  const White := 1
  const Red := -1
  const Empty := 0

  /** One point: the colour on it and how many checkers. */
  datatype Pt = Pt(color: int, count: int)

  /** Where a move starts: the bar, or a point index. */
  datatype Source = FromBar | FromPoint(i: int)

  /** Where a move ends: off the board, or a point index. */
  datatype Target = ToOff | ToPoint(j: int)

  datatype Move = Move(start: Source, end: Target, die: int)

  /** Everything the board holds: the points and the bar and off counts per colour. */
  datatype Layout = Layout(points: seq<Pt>, bar: map<int, int>, off: map<int, int>)

  predicate IsColor(c: int) { c == White || c == Red }

  /** A point is empty exactly when it has no checkers, and otherwise holds one colour. */
  predicate GoodPt(p: Pt) {
    p.count >= 0 && (p.count == 0 <==> p.color == Empty) && (p.color == Empty || IsColor(p.color))
  }

  predicate Wf(l: Layout) {
    |l.points| == 24 && (forall i :: 0 <= i < 24 ==> GoodPt(l.points[i])) &&
    White in l.bar && Red in l.bar && White in l.off && Red in l.off &&
    l.bar[White] >= 0 && l.bar[Red] >= 0 && l.off[White] >= 0 && l.off[Red] >= 0
  }

  /** Dice as rolled: faces 1 to 6. */
  predicate Dice(dice: seq<int>) {
    forall k :: 0 <= k < |dice| ==> 1 <= dice[k] <= 6
  }

  // ---------------------------------------------------------------------
  // Opening layout and checker totals

  function Setup(points: seq<Pt>): seq<Pt>
    requires |points| == 24
  {
    points[0 := Pt(White, 2)][5 := Pt(Red, 5)][7 := Pt(Red, 3)][11 := Pt(White, 5)]
          [12 := Pt(Red, 5)][16 := Pt(White, 3)][18 := Pt(White, 5)][23 := Pt(Red, 2)]
  }

  function Cleared(): seq<Pt> { seq(24, _ => Pt(Empty, 0)) }

  function Opening(): Layout {
    Layout(Setup(Cleared()), map[White := 0, Red := 0], map[White := 0, Red := 0])
  }

  /** What a point contributes to colour `c`'s total. */
  function Share(p: Pt, c: int): int { if p.color == c then p.count else 0 }

  function PointSum(s: seq<Pt>, c: int): int {
    if s == [] then 0 else PointSum(s[..|s| - 1], c) + Share(s[|s| - 1], c)
  }

  /** All of colour `c`'s checkers: on points, on the bar and borne off. */
  function Total(l: Layout, c: int): int
    requires c in l.bar && c in l.off
  {
    PointSum(l.points, c) + l.bar[c] + l.off[c]
  }

  lemma {:induction false} PointSumUpdate(s: seq<Pt>, i: int, p: Pt, c: int)
    requires 0 <= i < |s|
    ensures PointSum(s[i := p], c) == PointSum(s, c) - Share(s[i], c) + Share(p, c)
  {
    var t := s[i := p];
    if i < |s| - 1 {
      assert t[..|t| - 1] == s[..|s| - 1][i := p];
      PointSumUpdate(s[..|s| - 1], i, p, c);
    } else {
      assert t[..|t| - 1] == s[..|s| - 1];
    }
  }

  lemma {:induction false} PointSumCleared(n: nat, c: int)
    requires IsColor(c)
    ensures PointSum(seq(n, _ => Pt(Empty, 0)), c) == 0
  {
    if n > 0 {
      assert seq(n, _ => Pt(Empty, 0))[..n - 1] == seq(n - 1, _ => Pt(Empty, 0));
      PointSumCleared(n - 1, c);
    }
  }

  /** Each colour opens with 15 checkers, none on the bar or off. */
  lemma OpeningLayout()
    ensures Wf(Opening())
    ensures Total(Opening(), White) == 15 && Total(Opening(), Red) == 15
    ensures Opening().bar[White] == 0 && Opening().bar[Red] == 0
    ensures Opening().off[White] == 0 && Opening().off[Red] == 0
  {
    forall c | IsColor(c) ensures PointSum(Opening().points, c) == 15 {
      var s0 := Cleared();
      PointSumCleared(24, c);
      var s1 := s0[0 := Pt(White, 2)];
      PointSumUpdate(s0, 0, Pt(White, 2), c);
      var s2 := s1[5 := Pt(Red, 5)];
      PointSumUpdate(s1, 5, Pt(Red, 5), c);
      var s3 := s2[7 := Pt(Red, 3)];
      PointSumUpdate(s2, 7, Pt(Red, 3), c);
      var s4 := s3[11 := Pt(White, 5)];
      PointSumUpdate(s3, 11, Pt(White, 5), c);
      var s5 := s4[12 := Pt(Red, 5)];
      PointSumUpdate(s4, 12, Pt(Red, 5), c);
      var s6 := s5[16 := Pt(White, 3)];
      PointSumUpdate(s5, 16, Pt(White, 3), c);
      var s7 := s6[18 := Pt(White, 5)];
      PointSumUpdate(s6, 18, Pt(White, 5), c);
      PointSumUpdate(s7, 23, Pt(Red, 2), c);
    }
  }

  // ---------------------------------------------------------------------
  // Moving a checker

  /** The indices a move names lie on the board, and it does not end where it starts. */
  predicate Placed(start: Source, end: Target) {
    (start.FromPoint? ==> 0 <= start.i < 24) && (end.ToPoint? ==> 0 <= end.j < 24) &&
    !(start.FromPoint? && end.ToPoint? && start.i == end.j)
  }

  /** Takes one of `color`'s checkers off the bar or off a point; an emptied point loses its colour. */
  function Lift(l: Layout, start: Source, color: int): Layout
    requires Wf(l) && IsColor(color) && (start.FromPoint? ==> 0 <= start.i < 24)
  {
    match start
    case FromBar => l.(bar := l.bar[color := l.bar[color] - 1])
    case FromPoint(i) =>
      var left := l.points[i].count - 1;
      l.(points := l.points[i := Pt(if left == 0 then Empty else l.points[i].color, left)])
  }

  /** Puts the checker down: off the board, on an empty or own point, or on a lone opposing checker, which goes to the bar. */
  function Land(l: Layout, end: Target, color: int): Layout
    requires |l.points| == 24 && IsColor(color) && color in l.off && (end.ToPoint? ==> 0 <= end.j < 24)
    requires (end.ToPoint? ==> GoodPt(l.points[end.j])) && Red in l.bar && White in l.bar
  {
    match end
    case ToOff => l.(off := l.off[color := l.off[color] + 1])
    case ToPoint(j) =>
      var d := l.points[j];
      if d.count == 1 && d.color != color then
        l.(points := l.points[j := Pt(color, 1)], bar := l.bar[d.color := l.bar[d.color] + 1])
      else if d.count == 0 then l.(points := l.points[j := Pt(color, 1)])
      else l.(points := l.points[j := Pt(d.color, d.count + 1)])
  }

  /** The board after `color` moves a checker from `start` to `end`. */
  function Moved(l: Layout, start: Source, end: Target, color: int): Layout
    requires Wf(l) && IsColor(color) && Placed(start, end)
  {
    var lifted := Lift(l, start, color);
    assert end.ToPoint? ==> lifted.points[end.j] == l.points[end.j];
    Land(lifted, end, color)
  }

  /** The destination check: on the board and not held by two or more opposing checkers. */
  predicate IsValidMove(l: Layout, end: int, color: int): (ok: bool)
    requires |l.points| == 24
    ensures ok ==> 0 <= end < 24
    ensures 0 <= end < 24 && l.points[end].count <= 1 ==> ok
    ensures 0 <= end < 24 && l.points[end].color == color ==> ok
  {
    0 <= end <= 23 && !(l.points[end].count > 1 && l.points[end].color != color)
  }

  /** A point is a valid destination exactly when the checker landing there would own it afterwards. */
  lemma ValidMoveOwns(l: Layout, j: int, color: int)
    requires Wf(l) && IsColor(color) && 0 <= j < 24
    ensures IsValidMove(l, j, color) <==> Land(l, ToPoint(j), color).points[j].color == color
  {
  }

  /** `color` has a checker where the move starts, and the point it lands on is not blocked. */
  predicate Applicable(l: Layout, start: Source, end: Target, color: int)
    requires Wf(l) && IsColor(color) && Placed(start, end)
  {
    (match start
     case FromBar => l.bar[color] > 0
     case FromPoint(i) => l.points[i].color == color && l.points[i].count > 0) &&
    (end.ToPoint? ==> IsValidMove(l, end.j, color))
  }

  /**
   * An applicable move keeps the board well formed (an emptied point is
   * reset to no colour) and keeps both colours' totals over points, bar
   * and off: a hit moves the opposing checker to the bar.
   */
  lemma MoveConserves(l: Layout, start: Source, end: Target, color: int)
    requires Wf(l) && IsColor(color) && Placed(start, end) && Applicable(l, start, end, color)
    ensures Wf(Moved(l, start, end, color))
    ensures Total(Moved(l, start, end, color), White) == Total(l, White)
    ensures Total(Moved(l, start, end, color), Red) == Total(l, Red)
  {
    var lifted := Lift(l, start, color);
    LiftKeeps(l, start, color);
    assert end.ToPoint? ==> lifted.points[end.j] == l.points[end.j];
    LandKeeps(lifted, end, color);
  }

  /** Lifting an own checker keeps the board well formed and takes one from `color`'s total only. */
  lemma LiftKeeps(l: Layout, start: Source, color: int)
    requires Wf(l) && IsColor(color) && (start.FromPoint? ==> 0 <= start.i < 24)
    requires start.FromBar? ==> l.bar[color] > 0
    requires start.FromPoint? ==> l.points[start.i].color == color && l.points[start.i].count > 0
    ensures Wf(Lift(l, start, color))
    ensures Total(Lift(l, start, color), color) == Total(l, color) - 1
    ensures Total(Lift(l, start, color), -color) == Total(l, -color)
  {
    if start.FromPoint? {
      var i := start.i;
      var left := l.points[i].count - 1;
      var p := Pt(if left == 0 then Empty else l.points[i].color, left);
      PointSumUpdate(l.points, i, p, color);
      PointSumUpdate(l.points, i, p, -color);
      var t := l.points[i := p];
      assert forall k :: 0 <= k < 24 ==> GoodPt(t[k]);
    }
  }

  /** Landing on an unblocked point, or off, keeps the board well formed and adds one to `color`'s total only. */
  lemma LandKeeps(l: Layout, end: Target, color: int)
    requires Wf(l) && IsColor(color) && (end.ToPoint? ==> 0 <= end.j < 24 && IsValidMove(l, end.j, color))
    ensures Wf(Land(l, end, color))
    ensures Total(Land(l, end, color), color) == Total(l, color) + 1
    ensures Total(Land(l, end, color), -color) == Total(l, -color)
  {
    if end.ToPoint? {
      var j := end.j;
      var after := Land(l, end, color);
      PointSumUpdate(l.points, j, after.points[j], color);
      PointSumUpdate(l.points, j, after.points[j], -color);
      assert after.points == l.points[j := after.points[j]];
      assert forall k :: 0 <= k < 24 ==> GoodPt(after.points[k]);
    }
  }

  /** A hit: landing on a lone opposing checker leaves [color, 1] there and puts that checker on the bar. */
  lemma MoveHits(l: Layout, start: Source, j: int, color: int)
    requires Wf(l) && IsColor(color) && Placed(start, ToPoint(j))
    requires l.points[j].count == 1 && l.points[j].color == -color
    ensures Moved(l, start, ToPoint(j), color).points[j] == Pt(color, 1)
    ensures Moved(l, start, ToPoint(j), color).bar[-color] == l.bar[-color] + 1
  {
  }

  // ---------------------------------------------------------------------
  // Bearing off

  /** The home quadrant: points 18-23 for white, 0-5 for red. */
  predicate InHome(color: int, k: int) {
    if color == White then 18 <= k <= 23 else 0 <= k <= 5
  }

  /** `color` may bear off: nothing on the bar and no own checker outside the home quadrant. */
  predicate BearOffReady(l: Layout, color: int)
    requires |l.points| == 24 && color in l.bar
  {
    l.bar[color] <= 0 &&
    forall k :: 0 <= k < 24 && !InHome(color, k) ==> !(l.points[k].color == color && l.points[k].count > 0)
  }

  /** No own checker lies further from home than point `i` (within the home quadrant). */
  predicate NoneFurther(l: Layout, i: int, color: int)
    requires |l.points| == 24
  {
    if color == White then
      forall b :: 18 <= b < i && b < 24 ==> !(l.points[b].color == White && l.points[b].count > 0)
    else
      forall b :: i + 1 <= b < 6 && 0 <= b ==> !(l.points[b].color == Red && l.points[b].count > 0)
  }

  // ---------------------------------------------------------------------
  // The move generator

  /** The faces 1..n that occur in `dice`, ascending (the iteration order of a set of small ints). */
  function Faces(dice: seq<int>, n: int): seq<int>
    decreases n
  {
    if n <= 0 then [] else Faces(dice, n - 1) + (if n in dice then [n] else [])
  }

  function UniqueDice(dice: seq<int>): seq<int> { Faces(dice, 6) }

  lemma {:induction false} FacesMembers(dice: seq<int>, n: int, x: int)
    ensures x in Faces(dice, n) <==> 1 <= x <= n && x in dice
    decreases n
  {
    if n > 0 {
      FacesMembers(dice, n - 1, x);
    }
  }

  /** Each distinct die of the roll occurs once, in increasing order. */
  lemma {:induction false} FacesAscending(dice: seq<int>, n: int)
    ensures forall a, b :: 0 <= a < b < |Faces(dice, n)| ==> Faces(dice, n)[a] < Faces(dice, n)[b]
    ensures forall a :: 0 <= a < |Faces(dice, n)| ==> 1 <= Faces(dice, n)[a] <= n
    decreases n
  {
    if n > 0 {
      FacesAscending(dice, n - 1);
    }
  }

  /** The point a checker on the bar enters on with `die`. */
  function Entry(color: int, die: int): int { if color == White then -1 + die else 24 - die }

  /** Where a checker on point `i` lands with `die`. */
  function Dest(color: int, i: int, die: int): int { if color == White then i + die else i - die }

  /** `t` lies past the last point in `color`'s direction of travel. */
  predicate Beyond(color: int, t: int) { (color == White && t > 23) || (color == Red && t < 0) }

  /** `t` is exactly one step past the last point. */
  predicate Exact(color: int, t: int) { (color == White && t == 24) || (color == Red && t == -1) }

  /** Not blocked for `color`: at most one checker, or own colour. */
  predicate Open(l: Layout, t: int, color: int)
    requires |l.points| == 24 && 0 <= t < 24
  {
    l.points[t].count <= 1 || l.points[t].color == color
  }

  function EntryMove(l: Layout, die: int, color: int): seq<Move>
    requires |l.points| == 24
  {
    var t := Entry(color, die);
    if 0 <= t <= 23 && Open(l, t, color) then [Move(FromBar, ToPoint(t), die)] else []
  }

  /** The bar entries for each die of `ds`, in order. */
  function EntryMoves(l: Layout, ds: seq<int>, color: int): seq<Move>
    requires |l.points| == 24
  {
    if ds == [] then [] else EntryMoves(l, ds[..|ds| - 1], color) + EntryMove(l, ds[|ds| - 1], color)
  }

  /** The move, if any, of the checker on point `i` with `die`. */
  function DieMove(l: Layout, i: int, die: int, color: int, bear: bool): seq<Move>
    requires |l.points| == 24
  {
    var t := Dest(color, i, die);
    if Beyond(color, t) then
      if bear && (Exact(color, t) || NoneFurther(l, i, color)) then [Move(FromPoint(i), ToOff, die)] else []
    else if 0 <= t <= 23 && Open(l, t, color) then [Move(FromPoint(i), ToPoint(t), die)]
    else []
  }

  function DieMoves(l: Layout, i: int, ds: seq<int>, color: int, bear: bool): seq<Move>
    requires |l.points| == 24
  {
    if ds == [] then [] else DieMoves(l, i, ds[..|ds| - 1], color, bear) + DieMove(l, i, ds[|ds| - 1], color, bear)
  }

  /** `color` has at least one checker on point `i`. */
  predicate Owns(l: Layout, i: int, color: int)
    requires |l.points| == 24 && 0 <= i < 24
  {
    !(l.points[i].color != color || l.points[i].count == 0)
  }

  function PointMoves(l: Layout, i: int, ds: seq<int>, color: int, bear: bool): seq<Move>
    requires |l.points| == 24 && 0 <= i < 24
  {
    if Owns(l, i, color) then DieMoves(l, i, ds, color, bear) else []
  }

  /** The regular moves from points 0 .. n-1, point by point and die by die. */
  function Regular(l: Layout, ds: seq<int>, color: int, bear: bool, n: int): seq<Move>
    requires |l.points| == 24 && n <= 24
    decreases n
  {
    if n <= 0 then [] else Regular(l, ds, color, bear, n - 1) + PointMoves(l, n - 1, ds, color, bear)
  }

  /** get_valid_moves: bar entries only while a checker is on the bar, else every regular move. */
  function MoveList(l: Layout, dice: seq<int>, color: int): seq<Move>
    requires Wf(l) && IsColor(color)
  {
    if l.bar[color] > 0 then EntryMoves(l, UniqueDice(dice), color)
    else Regular(l, UniqueDice(dice), color, BearOffReady(l, color), 24)
  }

  /**
   * The moves of a roll, stated without reference to the generator's
   * order: with a checker on the bar only entries onto unblocked points;
   * otherwise a move of an own checker by one die onto an unblocked point,
   * or off the board when bearing off is allowed and the die is exact or
   * no own checker lies further back.
   */
  ghost predicate Legal(l: Layout, dice: seq<int>, color: int, m: Move)
    requires Wf(l) && IsColor(color)
  {
    m.die in dice && 1 <= m.die <= 6 &&
    if l.bar[color] > 0 then EntersFromBar(l, color, m)
    else m.start.FromPoint? && 0 <= m.start.i < 24 && Owns(l, m.start.i, color) &&
         Advances(l, color, BearOffReady(l, color), m)
  }

  /** A checker enters from the bar onto the unblocked point its die names. */
  predicate EntersFromBar(l: Layout, color: int, m: Move)
    requires |l.points| == 24
  {
    var t := Entry(color, m.die);
    m.start == FromBar && m.end == ToPoint(t) && 0 <= t <= 23 && Open(l, t, color)
  }

  /** A checker on a point moves by its die onto an unblocked point, or bears off as allowed. */
  predicate Advances(l: Layout, color: int, bear: bool, m: Move)
    requires |l.points| == 24 && m.start.FromPoint?
  {
    var t := Dest(color, m.start.i, m.die);
    if Beyond(color, t) then m.end == ToOff && bear && (Exact(color, t) || NoneFurther(l, m.start.i, color))
    else m.end == ToPoint(t) && 0 <= t <= 23 && Open(l, t, color)
  }

  lemma EntryMoveIs(l: Layout, die: int, color: int, m: Move)
    requires |l.points| == 24
    ensures m in EntryMove(l, die, color) <==> m.die == die && EntersFromBar(l, color, m)
  {
  }

  lemma DieMoveIs(l: Layout, i: int, die: int, color: int, bear: bool, m: Move)
    requires |l.points| == 24
    ensures m in DieMove(l, i, die, color, bear) <==> m.die == die && m.start == FromPoint(i) && Advances(l, color, bear, m)
  {
  }

  lemma {:induction false} EntryMovesMembers(l: Layout, ds: seq<int>, color: int, m: Move)
    requires |l.points| == 24
    ensures m in EntryMoves(l, ds, color) <==> m.die in ds && m in EntryMove(l, m.die, color)
  {
    if ds != [] {
      EntryMovesMembers(l, ds[..|ds| - 1], color, m);
      var last := ds[|ds| - 1];
      assert ds == ds[..|ds| - 1] + [last];
    }
  }

  lemma {:induction false} DieMovesMembers(l: Layout, i: int, ds: seq<int>, color: int, bear: bool, m: Move)
    requires |l.points| == 24
    ensures m in DieMoves(l, i, ds, color, bear) <==> m.die in ds && m in DieMove(l, i, m.die, color, bear)
  {
    if ds != [] {
      DieMovesMembers(l, i, ds[..|ds| - 1], color, bear, m);
      var last := ds[|ds| - 1];
      assert ds == ds[..|ds| - 1] + [last];
    }
  }

  lemma {:induction false} RegularMembers(l: Layout, ds: seq<int>, color: int, bear: bool, n: int, m: Move)
    requires |l.points| == 24 && n <= 24
    ensures m in Regular(l, ds, color, bear, n) <==>
      m.start.FromPoint? && 0 <= m.start.i < n && m in PointMoves(l, m.start.i, ds, color, bear)
    decreases n
  {
    if n > 0 {
      RegularMembers(l, ds, color, bear, n - 1, m);
      if m in PointMoves(l, n - 1, ds, color, bear) {
        DieMovesMembers(l, n - 1, ds, color, bear, m);
      }
    }
  }

  /** The generator lists exactly the legal moves of the roll. */
  lemma MoveListIsLegal(l: Layout, dice: seq<int>, color: int, m: Move)
    requires Wf(l) && IsColor(color) && Dice(dice)
    ensures m in MoveList(l, dice, color) <==> Legal(l, dice, color, m)
  {
    FacesMembers(dice, 6, m.die);
    if l.bar[color] > 0 {
      EntryMovesMembers(l, UniqueDice(dice), color, m);
      EntryMoveIs(l, m.die, color, m);
    } else {
      var bear := BearOffReady(l, color);
      RegularMembers(l, UniqueDice(dice), color, bear, 24, m);
      if m.start.FromPoint? && 0 <= m.start.i < 24 {
        DieMovesMembers(l, m.start.i, UniqueDice(dice), color, bear, m);
        DieMoveIs(l, m.start.i, m.die, color, bear, m);
      }
    }
  }

  /** Every generated move passes is_valid_move where it lands on a point, and can be applied. */
  lemma ListedMovesApplicable(l: Layout, dice: seq<int>, color: int, m: Move)
    requires Wf(l) && IsColor(color) && Dice(dice) && m in MoveList(l, dice, color)
    ensures Placed(m.start, m.end) && Applicable(l, m.start, m.end, color)
    ensures m.end.ToPoint? ==> IsValidMove(l, m.end.j, color)
  {
    MoveListIsLegal(l, dice, color, m);
  }

  // ---------------------------------------------------------------------
  // The AI's choice

  /** +50 for a hit, +100 for bearing off, +20 for making a point of two. */
  function Score(l: Layout, m: Move, color: int): int {
    var onPoint := m.end.ToPoint? && 0 <= m.end.j < |l.points|;
    (if onPoint && l.points[m.end.j].count == 1 && l.points[m.end.j].color != color then 50 else 0) +
    (if m.end.ToOff? then 100 else 0) +
    (if onPoint && l.points[m.end.j].color == color && l.points[m.end.j].count == 1 then 20 else 0)
  }

  /** `ms[k]` has the highest score, and every earlier move scores strictly less. */
  predicate FirstBest(l: Layout, ms: seq<Move>, color: int, k: int) {
    0 <= k < |ms| &&
    (forall j :: 0 <= j < |ms| ==> Score(l, ms[j], color) <= Score(l, ms[k], color)) &&
    (forall j :: 0 <= j < k ==> Score(l, ms[j], color) < Score(l, ms[k], color))
  }

  // ---------------------------------------------------------------------
  // The board object

  class Board {
    var points: seq<Pt>
    var bar: map<int, int>
    var off: map<int, int>

    function Current(): Layout
      reads this
    {
      Layout(points, bar, off)
    }

    /** A fresh board in the opening layout. */
    constructor ()
      ensures Current() == Opening()
    {
      points := Cleared();
      bar := map[White := 0, Red := 0];
      off := map[White := 0, Red := 0];
      new;
      SetupBoard();
    }

    method SetupBoard()
      requires |points| == 24
      modifies this
      ensures points == Setup(old(points)) && bar == old(bar) && off == old(off)
    {
      points := points[0 := Pt(White, 2)];
      points := points[5 := Pt(Red, 5)];
      points := points[7 := Pt(Red, 3)];
      points := points[11 := Pt(White, 5)];
      points := points[12 := Pt(Red, 5)];
      points := points[16 := Pt(White, 3)];
      points := points[18 := Pt(White, 5)];
      points := points[23 := Pt(Red, 2)];
    }

    method MovePiece(start: Source, end: Target, color: int)
      requires Wf(Current()) && IsColor(color) && Placed(start, end)
      modifies this
      ensures Current() == Moved(old(Current()), start, end, color)
    {
      LiftChecker(start, color);
      assert end.ToPoint? ==> points[end.j] == old(points)[end.j];
      LandChecker(end, color);
    }

    /** The first half of move_piece: take the checker off the bar or its point. */
    method LiftChecker(start: Source, color: int)
      requires Wf(Current()) && IsColor(color) && (start.FromPoint? ==> 0 <= start.i < 24)
      modifies this
      ensures Current() == Lift(old(Current()), start, color)
    {
      if start == FromBar {
        bar := bar[color := bar[color] - 1];
      } else {
        var i := start.i;
        points := points[i := Pt(points[i].color, points[i].count - 1)];
        if points[i].count == 0 {
          points := points[i := Pt(Empty, 0)];
        }
      }
    }

    /** The second half of move_piece: bear off, or land (hitting a lone opposing checker). */
    method LandChecker(end: Target, color: int)
      requires |points| == 24 && IsColor(color) && color in off && (end.ToPoint? ==> 0 <= end.j < 24)
      requires (end.ToPoint? ==> GoodPt(points[end.j])) && Red in bar && White in bar
      modifies this
      ensures Current() == Land(old(Current()), end, color)
    {
      if end == ToOff {
        off := off[color := off[color] + 1];
        return;
      }
      var j := end.j;
      var destColor, destCount := points[j].color, points[j].count;
      if destCount == 1 && destColor != color {
        points := points[j := Pt(color, 1)];
        bar := bar[destColor := bar[destColor] + 1];
      } else if destCount == 0 {
        points := points[j := Pt(color, 1)];
      } else {
        points := points[j := Pt(destColor, destCount + 1)];
      }
    }

    method CanBearOff(color: int) returns (ok: bool)
      requires |points| == 24 && color in bar
      ensures ok == BearOffReady(Current(), color)
    {
      if bar[color] > 0 {
        return false;
      }
      var start, end := if color == White then 0 else 6, if color == White then 17 else 23;
      for i := start to end + 1
        invariant forall k :: start <= k < i ==> !(points[k].color == color && points[k].count > 0)
      {
        if points[i].color == color && points[i].count > 0 {
          return false;
        }
      }
      return true;
    }

    /** The scan for an own checker further from home than point `i`. */
    method Furthest(i: int, color: int) returns (furthest: bool)
      requires |points| == 24
      ensures furthest == NoneFurther(Current(), i, color)
    {
      furthest := true;
      if color == White {
        var back := 18;
        while back < i && back < 24
          invariant furthest == forall b :: 18 <= b < back && b < i && b < 24 ==> !(points[b].color == White && points[b].count > 0)
          invariant 18 <= back
        {
          if points[back].color == White && points[back].count > 0 {
            furthest := false;
          }
          back := back + 1;
        }
      } else {
        var back := if i + 1 < 0 then 0 else i + 1;
        while back < 6
          invariant furthest == forall b :: i + 1 <= b < back && 0 <= b && b < 6 ==> !(points[b].color == Red && points[b].count > 0)
          invariant back >= i + 1 && back >= 0 && (back <= 6 || back == i + 1)
        {
          if points[back].color == Red && points[back].count > 0 {
            furthest := false;
          }
          back := back + 1;
        }
      }
    }

    /** The inner loop over the dice for the checkers on point `i`. */
    method DiceFrom(i: int, ds: seq<int>, color: int, bear: bool) returns (moves: seq<Move>)
      requires |points| == 24 && IsColor(color)
      ensures moves == DieMoves(Current(), i, ds, color, bear)
    {
      moves := [];
      for k := 0 to |ds|
        invariant moves == DieMoves(Current(), i, ds[..k], color, bear)
      {
        assert ds[..k + 1][..k] == ds[..k];
        var die := ds[k];
        var target := if color == White then i + die else i - die;
        if (color == White && target > 23) || (color == Red && target < 0) {
          if bear {
            if (color == White && target == 24) || (color == Red && target == -1) {
              moves := moves + [Move(FromPoint(i), ToOff, die)];
            } else {
              var furthest := Furthest(i, color);
              if furthest {
                moves := moves + [Move(FromPoint(i), ToOff, die)];
              }
            }
          }
        } else if 0 <= target <= 23 {
          var tColor, tCount := points[target].color, points[target].count;
          if tCount <= 1 || tColor == color {
            moves := moves + [Move(FromPoint(i), ToPoint(target), die)];
          }
        }
      }
      assert ds[..|ds|] == ds;
    }

    method GetValidMoves(dice: seq<int>, color: int) returns (moves: seq<Move>)
      requires Wf(Current()) && IsColor(color)
      ensures moves == MoveList(Current(), dice, color)
    {
      var ds := UniqueDice(dice);
      if bar[color] > 0 {
        moves := BarEntries(ds, color);
        return;
      }
      var bearOffAllowed := CanBearOff(color);
      moves := RegularMoves(ds, color, bearOffAllowed);
    }

    /** The loop over the dice while a checker is on the bar. */
    method BarEntries(ds: seq<int>, color: int) returns (moves: seq<Move>)
      requires |points| == 24
      ensures moves == EntryMoves(Current(), ds, color)
    {
      moves := [];
      for k := 0 to |ds|
        invariant moves == EntryMoves(Current(), ds[..k], color)
      {
        assert ds[..k + 1][..k] == ds[..k];
        var die := ds[k];
        var target := if color == White then -1 + die else 24 - die;
        if 0 <= target <= 23 {
          var c, count := points[target].color, points[target].count;
          if count <= 1 || c == color {
            moves := moves + [Move(FromBar, ToPoint(target), die)];
          }
        }
      }
      assert ds[..|ds|] == ds;
    }

    /** The loop over the points, then the dice, when no checker is on the bar. */
    method RegularMoves(ds: seq<int>, color: int, bear: bool) returns (moves: seq<Move>)
      requires |points| == 24 && IsColor(color)
      ensures moves == Regular(Current(), ds, color, bear, 24)
    {
      moves := [];
      for i := 0 to 24
        invariant moves == Regular(Current(), ds, color, bear, i)
      {
        var c, count := points[i].color, points[i].count;
        if c != color || count == 0 {
          continue;
        }
        var fromHere := DiceFrom(i, ds, color, bear);
        moves := moves + fromHere;
      }
    }
  }

  class AI {
    const color: int

    constructor (color: int)
      ensures this.color == color
    {
      this.color := color;
    }

    /**
     * None when the roll allows no move; otherwise the first generated
     * move with the highest score.
     */
    method GetMove(board: Board, dice: seq<int>) returns (best: Option<Move>)
      requires Wf(board.Current()) && IsColor(color)
      ensures best == None <==> MoveList(board.Current(), dice, color) == []
      ensures best.Some? ==> exists k :: FirstBest(board.Current(), MoveList(board.Current(), dice, color), color, k) &&
                                          best.value == MoveList(board.Current(), dice, color)[k]
    {
      var moves := board.GetValidMoves(dice, color);
      if moves == [] {
        return None;
      }
      var k := Pick(board, moves);
      best := Some(moves[k]);
    }

    /** The scoring loop: the first move whose score beats every earlier one and is beaten by none. */
    method Pick(board: Board, moves: seq<Move>) returns (at: int)
      requires moves != []
      ensures FirstBest(board.Current(), moves, color, at)
    {
      var l := board.Current();
      var bestScore := -9999;
      at := -1;
      for i := 0 to |moves|
        invariant i == 0 ==> at == -1 && bestScore == -9999
        invariant i > 0 ==> 0 <= at < i && bestScore == Score(l, moves[at], color)
        invariant i > 0 ==> forall j :: 0 <= j < i ==> Score(l, moves[j], color) <= bestScore
        invariant i > 0 ==> forall j :: 0 <= j < at ==> Score(l, moves[j], color) < bestScore
      {
        var score := ScoreMove(board, moves[i]);
        if score > bestScore {
          bestScore := score;
          at := i;
        }
      }
    }

    /** The heuristic for one move, read off the board. */
    method ScoreMove(board: Board, m: Move) returns (score: int)
      ensures score == Score(board.Current(), m, color)
    {
      score := 0;
      var onPoint := m.end.ToPoint? && 0 <= m.end.j < |board.points|;
      if onPoint {
        var c, count := board.points[m.end.j].color, board.points[m.end.j].count;
        if count == 1 && c != color {
          score := score + 50;
        }
      }
      if m.end == ToOff {
        score := score + 100;
      }
      if onPoint {
        var c, count := board.points[m.end.j].color, board.points[m.end.j].count;
        if c == color && count == 1 {
          score := score + 20;
        }
      }
    }
  }
}

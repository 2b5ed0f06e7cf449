/**
 * The go board object: stones are placed and captured on its grid, passes
 * are counted, and two passes in a row end the game with an area score.
 * The group, liberty and flood-fill loops are proved against the rules in
 * module GoGrid.
 */
module Go {
  import opened Options
  import opened GoGrid

  /** The final score; white's total includes a komi of 6.5, so it is kept doubled. */
  datatype ScoreResult = ScoreResult(black: nat, whiteDoubled: nat)

  const KomiDoubled := 13

  // ---------------------------------------------------------------------
  // Groups and liberties

  /** get_group: a stack of points to visit and the set of stones found so far. */
  method GetGroup(board: Grid, r: int, c: int) returns (group: set<Point>)
    requires OnBoard((r, c))
    ensures group == Group(board, (r, c))
  {
    var color := board[r][c];
    if color == EmptyPoint {
      return {};
    }
    ghost var p := (r, c);
    ConnectedRefl(board, p);
    group := {};
    var stack := [(r, c)];
    while stack != []
      invariant Flooding(board, p, group, stack)
      decreases AllPoints() - group, |stack|
    {
      var cur := stack[|stack| - 1];
      if cur in group {
        FloodSkip(board, p, group, stack);
        stack := stack[..|stack| - 1];
        continue;
      }
      FloodVisit(board, p, group, stack);
      var rest := stack[..|stack| - 1];
      group := group + {cur};
      stack := PushMatching(board, cur, color, rest);
    }
    FloodDone(board, group, color, p);
  }

  /** The loop invariant of get_group's flood fill started at `p`. */
  ghost predicate Flooding(g: Grid, p: Point, found: set<Point>, stack: seq<Point>) {
    OnBoard(p) && found <= Component(g, p) && Within(stack, Component(g, p)) &&
    (p in found || p in stack) && ClosedBy(g, found, stack, At(g, p))
  }

  /** Popping a point already found keeps get_group's invariant. */
  lemma FloodSkip(g: Grid, p: Point, found: set<Point>, stack: seq<Point>)
    requires stack != [] && stack[|stack| - 1] in found && Flooding(g, p, found, stack)
    ensures Flooding(g, p, found, stack[..|stack| - 1])
  {
    PopVisited(g, found, stack, At(g, p));
    WithinPop(stack, Component(g, p));
    PopKeeps(p, stack);
  }

  /** Finding a new point and pushing its like-coloured neighbours keeps get_group's invariant; the point is on the board. */
  lemma FloodVisit(g: Grid, p: Point, found: set<Point>, stack: seq<Point>)
    requires stack != [] && stack[|stack| - 1] !in found && Flooding(g, p, found, stack)
    ensures var cur := stack[|stack| - 1];
      cur in AllPoints() && Flooding(g, p, found + {cur}, stack[..|stack| - 1] + Matching(g, cur, At(g, p), 4))
  {
    var cur := stack[|stack| - 1];
    PopNew(g, found, stack, At(g, p));
    WithinPop(stack, Component(g, p));
    PushWithin(g, p, cur, stack[..|stack| - 1]);
    PopKeeps(p, stack);
    ComponentMembers(g, p, cur);
    AllPointsOnBoard(cur);
  }

  /** Every point on the stack lies in `S`. */
  ghost predicate Within(stack: seq<Point>, S: set<Point>) {
    forall i :: 0 <= i < |stack| ==> stack[i] in S
  }

  /** A flood fill's frontier: each neighbour holding `v` of a point found is found or still on the stack. */
  ghost predicate ClosedBy(g: Grid, found: set<Point>, stack: seq<Point>, v: Cell) {
    forall s, n :: s in found && n in Matching(g, s, v, 4) ==> n in found || n in stack
  }

  /** Popping a point already found keeps the frontier. */
  lemma PopVisited(g: Grid, found: set<Point>, stack: seq<Point>, v: Cell)
    requires stack != [] && stack[|stack| - 1] in found && ClosedBy(g, found, stack, v)
    ensures ClosedBy(g, found, stack[..|stack| - 1], v)
  {
    forall n | n in stack ensures n in found || n in stack[..|stack| - 1] {
      var i :| 0 <= i < |stack| && stack[i] == n;
      if i < |stack| - 1 {
        assert stack[..|stack| - 1][i] == n;
      }
    }
  }

  /** Pushing the like-coloured neighbours of a member keeps the stack inside the component. */
  lemma PushWithin(g: Grid, p: Point, cur: Point, stack: seq<Point>)
    requires OnBoard(p) && cur in Component(g, p) && Within(stack, Component(g, p))
    ensures Within(stack + Matching(g, cur, At(g, p), 4), Component(g, p))
  {
    ComponentClosed(g, p);
    var next := stack + Matching(g, cur, At(g, p), 4);
    forall i | 0 <= i < |next| ensures next[i] in Component(g, p) {
      if i >= |stack| {
        assert next[i] in Matching(g, cur, At(g, p), 4);
      }
    }
  }

  lemma WithinPop(stack: seq<Point>, S: set<Point>)
    requires stack != [] && Within(stack, S)
    ensures Within(stack[..|stack| - 1], S)
  {
    var rest := stack[..|stack| - 1];
    forall i | 0 <= i < |rest| ensures rest[i] in S {
      assert rest[i] == stack[i];
    }
  }

  /** A flood fill whose stack has run empty has found the whole component of its start. */
  lemma FloodDone(g: Grid, found: set<Point>, v: Cell, p: Point)
    requires OnBoard(p) && At(g, p) == v && p in found && found <= Component(g, p)
    requires ClosedBy(g, found, [], v)
    ensures found == Component(g, p)
  {
    ClosedHasComponent(g, found, v, p);
  }

  /** Finding the popped point and pushing its neighbours keeps the frontier. */
  lemma PopNew(g: Grid, found: set<Point>, stack: seq<Point>, v: Cell)
    requires stack != [] && ClosedBy(g, found, stack, v)
    ensures var cur := stack[|stack| - 1];
      ClosedBy(g, found + {cur}, stack[..|stack| - 1] + Matching(g, cur, v, 4), v)
  {
    var cur := stack[|stack| - 1];
    var next := stack[..|stack| - 1] + Matching(g, cur, v, 4);
    forall n | n in stack ensures n in found + {cur} || n in next {
      var i :| 0 <= i < |stack| && stack[i] == n;
      if i < |stack| - 1 {
        assert next[i] == n;
      }
    }
    forall n | n in Matching(g, cur, v, 4) ensures n in next {
      var i :| 0 <= i < |Matching(g, cur, v, 4)| && Matching(g, cur, v, 4)[i] == n;
      assert next[|stack| - 1 + i] == n;
    }
  }

  /** The inner loop of the flood fills: pushes the neighbours of `cur` that hold `v`. */
  method PushMatching(board: Grid, cur: Point, v: Cell, stack: seq<Point>) returns (pushed: seq<Point>)
    ensures pushed == stack + Matching(board, cur, v, 4)
  {
    pushed := stack;
    for k := 0 to 4
      invariant pushed == stack + Matching(board, cur, v, k)
    {
      var nr, nc := cur.0 + Dirs[k].0, cur.1 + Dirs[k].1;
      if 0 <= nr < N && 0 <= nc < N {
        if board[nr][nc] == v {
          pushed := pushed + [(nr, nc)];
        }
      }
    }
  }

  /** count_liberties: the number of distinct empty points next to the group. */
  method CountLiberties(group: set<Point>, board: Grid) returns (count: nat)
    ensures count == |Liberties(board, group)|
  {
    var liberties: set<Point> := {};
    var rest := group;
    while rest != {}
      invariant rest <= group
      invariant liberties == Liberties(board, group - rest)
      decreases |rest|
    {
      var s :| s in rest;
      LibertiesAdd(board, group - rest, s);
      assert group - (rest - {s}) == (group - rest) + {s};
      liberties := AddEmptyAround(board, s, liberties);
      rest := rest - {s};
    }
    assert group - {} == group;
    count := |liberties|;
  }

  method AddEmptyAround(board: Grid, s: Point, liberties: set<Point>) returns (more: set<Point>)
    ensures more == liberties + (set n | n in Matching(board, s, EmptyPoint, 4))
  {
    more := liberties;
    for k := 0 to 4
      invariant more == liberties + (set n | n in Matching(board, s, EmptyPoint, k))
    {
      var nr, nc := s.0 + Dirs[k].0, s.1 + Dirs[k].1;
      if 0 <= nr < N && 0 <= nc < N {
        if board[nr][nc] == EmptyPoint {
          more := more + {(nr, nc)};
        }
      }
    }
  }

  // ---------------------------------------------------------------------
  // Captures

  /** Empties every point of `group`, counting them. */
  method RemoveGroup(board: Grid, group: set<Point>, count: nat) returns (cleared: Grid, total: nat)
    requires forall s :: s in group ==> OnBoard(s)
    ensures cleared == Clear(board, group) && total == count + |group|
  {
    cleared, total := board, count;
    var rest := group;
    ClearNone(board);
    assert group - rest == {};
    while rest != {}
      invariant rest <= group
      invariant cleared == Clear(board, group - rest) && total == count + |group - rest|
      decreases |rest|
    {
      var s :| s in rest;
      ClearStep(board, group, rest, s);
      cleared := SetAt(cleared, s, EmptyPoint);
      total := total + 1;
      rest := rest - {s};
    }
    assert group - {} == group;
  }

  lemma ClearStep(g: Grid, group: set<Point>, rest: set<Point>, s: Point)
    requires s in rest && rest <= group && OnBoard(s)
    ensures Clear(g, group - (rest - {s})) == SetAt(Clear(g, group - rest), s, EmptyPoint)
    ensures |group - (rest - {s})| == |group - rest| + 1
  {
    assert group - (rest - {s}) == (group - rest) + {s};
    ClearAdd(g, group - rest, s);
  }

  lemma ClearNone(g: Grid)
    ensures Clear(g, {}) == g
  {
    var h := Clear(g, {});
    forall i | 0 <= i < N ensures h[i] == g[i] {
      forall j | 0 <= j < N ensures h[i][j] == g[i][j] {
        assert At(h, (i, j)) == At(g, (i, j));
      }
    }
  }

  /**
   * The capture loop of is_valid_move and place_stone around the stone on
   * (r, c): opponent groups next to it left without a liberty are removed.
   */
  method CaptureAround(board: Grid, r: int, c: int, opponent: Cell) returns (after: Grid, captured: nat)
    ensures (after, captured) == CaptureFrom(board, (r, c), opponent, 4)
  {
    after, captured := board, 0;
    for k := 0 to 4
      invariant (after, captured) == CaptureFrom(board, (r, c), opponent, k)
    {
      ghost var prev := (after, captured);
      var q := Step((r, c), k);
      after, captured := CaptureNeighbour(after, captured, q.0, q.1, opponent);
      assert CaptureFrom(board, (r, c), opponent, k + 1) == CaptureAt(prev, q, opponent);
    }
  }

  /** The body of the capture loop for the neighbour (nr, nc). */
  method CaptureNeighbour(board: Grid, count: nat, nr: int, nc: int, opponent: Cell) returns (after: Grid, captured: nat)
    ensures (after, captured) == CaptureAt((board, count), (nr, nc), opponent)
  {
    after, captured := board, count;
    if 0 <= nr < N && 0 <= nc < N && board[nr][nc] == opponent {
      var grp := GetGroup(board, nr, nc);
      var libs := CountLiberties(grp, board);
      if libs == 0 {
        GroupMembers(board, (nr, nc));
        after, captured := RemoveGroup(board, grp, count);
      }
      CaptureAtBy(board, count, (nr, nc), opponent, grp, libs, after, captured);
    }
  }

  lemma CaptureAtBy(g: Grid, count: nat, q: Point, opp: Cell, grp: set<Point>, libs: nat, after: Grid, captured: nat)
    requires OnBoard(q) && At(g, q) == opp && grp == Group(g, q) && libs == |Liberties(g, grp)|
    requires libs == 0 ==> after == Clear(g, grp) && captured == count + |grp|
    requires libs != 0 ==> after == g && captured == count
    ensures (after, captured) == CaptureAt((g, count), q, opp)
  {
  }

  // ---------------------------------------------------------------------
  // Area scoring

  /** The points before (r, c) in row-major order. */
  ghost function Done(r: int, c: int): set<Point> {
    set q | q in AllPoints() && (q.0 < r || (q.0 == r && q.1 < c))
  }

  lemma DoneIn(r: int, c: int, q: Point)
    ensures q in Done(r, c) <==> OnBoard(q) && (q.0 < r || (q.0 == r && q.1 < c))
  {
    AllPointsOnBoard(q);
  }

  /**
   * What calculate_score knows before (r, c): `visited` is made of whole
   * empty regions and holds every empty point already passed, and each
   * area counts the stones passed plus the owned points visited.
   */
  ghost predicate Scanned(g: Grid, r: int, c: int, st: Tally) {
    Regions(g, st.0) && Covered(g, r, c, st.0) &&
    st.1 == Counted(g, r, c, st.0, BStone) && st.2 == Counted(g, r, c, st.0, WStone)
  }

  /** calculate_score's running state: the points visited, black's area, white's area. */
  type Tally = (set<Point>, nat, nat)

  /** `visited` holds empty points only, and with each point its whole empty region. */
  ghost predicate Regions(g: Grid, visited: set<Point>) {
    (forall q :: q in visited ==> OnBoard(q) && At(g, q) == EmptyPoint) && Closed(g, visited, EmptyPoint)
  }

  /** Every empty point before (r, c) has been visited. */
  ghost predicate Covered(g: Grid, r: int, c: int, visited: set<Point>) {
    forall q :: q in Done(r, c) && OnBoard(q) && At(g, q) == EmptyPoint ==> q in visited
  }

  /** The area of `v` found so far: its stones before (r, c) and its territory among the visited points. */
  ghost function Counted(g: Grid, r: int, c: int, visited: set<Point>, v: Cell): nat {
    |Stones(g, v) * Done(r, c)| + |Territory(g, v) * visited|
  }

  /**
   * The flood fill of calculate_score from the empty point (r, c): it
   * visits the point's whole region, counts it, and notes which colours
   * border it.
   */
  method FillRegion(g: Grid, r: int, c: int, visited: set<Point>)
      returns (visitedAfter: set<Point>, size: nat, reachesB: bool, reachesW: bool)
    requires OnBoard((r, c)) && g[r][c] == EmptyPoint
    requires visited * Component(g, (r, c)) == {}
    ensures visitedAfter == visited + Component(g, (r, c))
    ensures size == |Component(g, (r, c))|
    ensures reachesB == Touches(g, Component(g, (r, c)), BStone)
    ensures reachesW == Touches(g, Component(g, (r, c)), WStone)
  {
    ghost var p := (r, c);
    ConnectedRefl(g, p);
    var region: seq<Point> := [];
    var stack := [(r, c)];
    reachesB, reachesW := false, false;
    visitedAfter := visited;
    ghost var seen: set<Point> := {};
    while stack != []
      invariant Filling(g, p, visited, seen, visitedAfter, region, stack, reachesB, reachesW)
      decreases AllPoints() - seen, |stack|
    {
      ghost var seen0, stack0 := seen, stack;
      seen, visitedAfter, region, stack, reachesB, reachesW :=
        FillStep(g, p, visited, seen, visitedAfter, region, stack, reachesB, reachesW);
      FillProgress(seen0, seen, stack0, stack);
    }
    FloodDone(g, seen, EmptyPoint, p);
    size := |region|;
  }

  /** The loop invariant of the scoring flood fill started at `p`. */
  ghost predicate Filling(g: Grid, p: Point, visited: set<Point>, seen: set<Point>, visitedAfter: set<Point>,
                          region: seq<Point>, stack: seq<Point>, reachesB: bool, reachesW: bool) {
    OnBoard(p) && At(g, p) == EmptyPoint && visited * Component(g, p) == {} &&
    visitedAfter == visited + seen && seen <= Component(g, p) && |region| == |seen| &&
    Within(stack, Component(g, p)) && (p in seen || p in stack) &&
    ClosedBy(g, seen, stack, EmptyPoint) &&
    reachesB == Touches(g, seen, BStone) && reachesW == Touches(g, seen, WStone)
  }

  /** A step of the fill either finds a new point of the board or shortens the stack. */
  ghost predicate Progress(seen0: set<Point>, seen: set<Point>, stack0: seq<Point>, stack: seq<Point>) {
    (seen == seen0 && |stack| < |stack0|) || (exists q :: q in seen && q !in seen0 && q in AllPoints())
  }

  lemma FillProgress(seen0: set<Point>, seen: set<Point>, stack0: seq<Point>, stack: seq<Point>)
    requires seen0 <= seen <= AllPoints() && Progress(seen0, seen, stack0, stack)
    ensures AllPoints() - seen < AllPoints() - seen0 || (seen == seen0 && |stack| < |stack0|)
  {
    if seen != seen0 {
      var q :| q in seen && q !in seen0 && q in AllPoints();
      assert q in AllPoints() - seen0 && q !in AllPoints() - seen;
    }
  }

  /** One pass of the fill loop: pop a point, skip it if visited, otherwise visit it. */
  method FillStep(g: Grid, ghost p: Point, ghost visited: set<Point>, ghost seen: set<Point>, visitedAfter: set<Point>,
                  region: seq<Point>, stack: seq<Point>, reachesB: bool, reachesW: bool)
      returns (ghost seen': set<Point>, visitedAfter': set<Point>, region': seq<Point>, stack': seq<Point>,
               reachesB': bool, reachesW': bool)
    requires stack != [] && Filling(g, p, visited, seen, visitedAfter, region, stack, reachesB, reachesW)
    ensures Filling(g, p, visited, seen', visitedAfter', region', stack', reachesB', reachesW')
    ensures seen <= seen' <= AllPoints() && Progress(seen, seen', stack, stack')
  {
    var cur := stack[|stack| - 1];
    stack' := stack[..|stack| - 1];
    assert cur in Component(g, p);
    assert cur in visited ==> cur in visited * Component(g, p);
    PopKeeps(p, stack);
    if cur in visitedAfter {
      FillSkip(g, p, visited, seen, visitedAfter, region, stack, reachesB, reachesW);
      seen', visitedAfter', region', reachesB', reachesW' := seen, visitedAfter, region, reachesB, reachesW;
      return;
    }
    PopNew(g, seen, stack, EmptyPoint);
    WithinPop(stack, Component(g, p));
    visitedAfter', region', stack', reachesB', reachesW' :=
      FillVisit(g, p, cur, visited, seen, visitedAfter, region, stack', reachesB, reachesW);
    seen' := seen + {cur};
    assert cur in seen' && cur !in seen && cur in AllPoints();
  }

  /** The start point is either found, just popped, or still on the rest of the stack. */
  lemma PopKeeps(p: Point, stack: seq<Point>)
    requires stack != []
    ensures p in stack ==> p == stack[|stack| - 1] || p in stack[..|stack| - 1]
  {
    if p in stack && p != stack[|stack| - 1] {
      var i :| 0 <= i < |stack| && stack[i] == p;
      assert stack[..|stack| - 1][i] == p;
    }
  }

  /** Popping a point already visited keeps the fill's invariant. */
  lemma FillSkip(g: Grid, p: Point, visited: set<Point>, seen: set<Point>, visitedAfter: set<Point>,
                 region: seq<Point>, stack: seq<Point>, reachesB: bool, reachesW: bool)
    requires stack != [] && Filling(g, p, visited, seen, visitedAfter, region, stack, reachesB, reachesW)
    requires stack[|stack| - 1] in seen
    ensures Filling(g, p, visited, seen, visitedAfter, region, stack[..|stack| - 1], reachesB, reachesW)
  {
    PopVisited(g, seen, stack, EmptyPoint);
    WithinPop(stack, Component(g, p));
    PopKeeps(p, stack);
  }

  /** One new point of the scoring flood fill: mark it, count it, note its borders and push its empty neighbours. */
  method FillVisit(g: Grid, ghost p: Point, cur: Point, ghost visited: set<Point>, ghost seen: set<Point>,
                   visitedAfter: set<Point>, region: seq<Point>, stack: seq<Point>, reachesB: bool, reachesW: bool)
      returns (visitedAfter': set<Point>, region': seq<Point>, stack': seq<Point>, reachesB': bool, reachesW': bool)
    requires OnBoard(p) && At(g, p) == EmptyPoint && cur in Component(g, p) && cur !in seen
    requires visitedAfter == visited + seen && seen <= Component(g, p) && |region| == |seen|
    requires Within(stack, Component(g, p))
    requires reachesB == Touches(g, seen, BStone) && reachesW == Touches(g, seen, WStone)
    ensures visitedAfter' == visited + (seen + {cur}) && |region'| == |seen + {cur}|
    ensures stack' == stack + Matching(g, cur, EmptyPoint, 4) && Within(stack', Component(g, p))
    ensures reachesB' == Touches(g, seen + {cur}, BStone) && reachesW' == Touches(g, seen + {cur}, WStone)
  {
    PushWithin(g, p, cur, stack);
    TouchesAdd(g, seen, cur, BStone);
    TouchesAdd(g, seen, cur, WStone);
    visitedAfter' := visitedAfter + {cur};
    region' := region + [cur];
    stack', reachesB', reachesW' := ScanAround(g, cur, stack, reachesB, reachesW);
  }

  lemma TouchesAdd(g: Grid, S: set<Point>, x: Point, v: Cell)
    ensures Touches(g, S + {x}, v) <==> Touches(g, S, v) || Matching(g, x, v, 4) != []
  {
    if Matching(g, x, v, 4) != [] {
      var n := Matching(g, x, v, 4)[0];
      assert x in S + {x} && n in Matching(g, x, v, 4);
    }
  }

  /** The inner loop of the scoring flood fill: stones note a border, empty points are pushed. */
  method ScanAround(g: Grid, cur: Point, stack: seq<Point>, reachesB: bool, reachesW: bool)
      returns (pushed: seq<Point>, rb: bool, rw: bool)
    ensures pushed == stack + Matching(g, cur, EmptyPoint, 4)
    ensures rb == (reachesB || Matching(g, cur, BStone, 4) != [])
    ensures rw == (reachesW || Matching(g, cur, WStone, 4) != [])
  {
    pushed, rb, rw := stack, reachesB, reachesW;
    for k := 0 to 4
      invariant pushed == stack + Matching(g, cur, EmptyPoint, k)
      invariant rb == (reachesB || Matching(g, cur, BStone, k) != [])
      invariant rw == (reachesW || Matching(g, cur, WStone, k) != [])
    {
      var nr, nc := cur.0 + Dirs[k].0, cur.1 + Dirs[k].1;
      if 0 <= nr < N && 0 <= nc < N {
        if g[nr][nc] == BStone {
          rb := true;
        } else if g[nr][nc] == WStone {
          rw := true;
        } else {
          pushed := pushed + [(nr, nc)];
        }
      }
    }
  }

  /** One point of calculate_score's double loop. */
  method ScorePoint(g: Grid, r: int, c: int, visited: set<Point>, bArea: nat, wArea: nat)
      returns (visitedAfter: set<Point>, b: nat, w: nat)
    requires OnBoard((r, c)) && (visited, bArea, wArea) == ScanState(g, r, c)
    ensures (visitedAfter, b, w) == ScanState(g, r, c + 1)
  {
    ScanStateScanned(g, r, c);
    visitedAfter, b, w := visited, bArea, wArea;
    if g[r][c] == BStone {
      b := b + 1;
    } else if g[r][c] == WStone {
      w := w + 1;
    } else if (r, c) !in visited {
      var size, reachesB, reachesW;
      ScanApart(g, r, c, (visited, bArea, wArea));
      visitedAfter, size, reachesB, reachesW := FillRegion(g, r, c, visited);
      if reachesB && !reachesW {
        b := b + size;
      }
      if reachesW && !reachesB {
        w := w + size;
      }
    }
    ScorePointIs(g, r, c, visited, bArea, wArea, visitedAfter, b, w);
  }

  /** The effect of calculate_score's loop body at (r, c) on (visited, b_area, w_area). */
  ghost function ScanStep(g: Grid, r: int, c: int, st: Tally): Tally
    requires OnBoard((r, c))
  {
    if g[r][c] == BStone then (st.0, st.1 + 1, st.2)
    else if g[r][c] == WStone then (st.0, st.1, st.2 + 1)
    else if (r, c) in st.0 then st
    else
      var R := Component(g, (r, c));
      (st.0 + R,
       st.1 + (if Touches(g, R, BStone) && !Touches(g, R, WStone) then |R| else 0),
       st.2 + (if Touches(g, R, WStone) && !Touches(g, R, BStone) then |R| else 0))
  }

  /** The state of calculate_score's double loop when it reaches (r, c). */
  ghost function ScanState(g: Grid, r: int, c: int): Tally
    requires 0 <= r <= N && 0 <= c <= N && (r < N || c == 0)
    decreases r, c
  {
    if c == 0 then
      if r == 0 then ({}, 0, 0) else ScanState(g, r - 1, N)
    else ScanStep(g, r, c - 1, ScanState(g, r, c - 1))
  }

  /** Each state the scan reaches satisfies `Scanned`. */
  lemma {:induction false} ScanStateScanned(g: Grid, r: int, c: int)
    requires 0 <= r <= N && 0 <= c <= N && (r < N || c == 0)
    ensures Scanned(g, r, c, ScanState(g, r, c))
    decreases r, c
  {
    if c == 0 {
      if r == 0 {
        ScanStart(g);
      } else {
        ScanStateScanned(g, r - 1, N);
        NextRow(g, r - 1, ScanState(g, r - 1, N));
      }
    } else {
      ScanStateScanned(g, r, c - 1);
      ScanStepScanned(g, r, c);
    }
  }

  /** One step of the scan keeps `Scanned`. */
  lemma ScanStepScanned(g: Grid, r: int, c: int)
    requires 0 <= r < N && 0 < c <= N
    requires Scanned(g, r, c - 1, ScanState(g, r, c - 1))
    ensures Scanned(g, r, c, ScanState(g, r, c))
  {
    ScanStateUnfold(g, r, c);
    StepScanned(g, r, c, ScanState(g, r, c - 1));
  }

  lemma ScanStateUnfold(g: Grid, r: int, c: int)
    requires 0 <= r < N && 0 < c <= N
    ensures ScanState(g, r, c) == ScanStep(g, r, c - 1, ScanState(g, r, c - 1))
  {
  }

  /** Scanned before (r, c) becomes Scanned after it, for the state ScanStep gives. */
  lemma StepScanned(g: Grid, r: int, c: int, st: Tally)
    requires OnBoard((r, c - 1)) && Scanned(g, r, c - 1, st)
    ensures Scanned(g, r, c, ScanStep(g, r, c - 1, st))
  {
    if g[r][c - 1] != EmptyPoint || (r, c - 1) in st.0 {
      ScanPassed(g, r, c, st);
    } else {
      ScanRegion(g, r, c, st);
    }
  }

  /** The scan over the whole grid counts each colour's area. */
  lemma ScanTotals(g: Grid)
    ensures ScanState(g, N, 0).1 == Area(g, BStone) && ScanState(g, N, 0).2 == Area(g, WStone)
  {
    ScanStateScanned(g, N, 0);
    ScanComplete(g, ScanState(g, N, 0));
  }

  /** The values ScorePoint computes are one step of the scan. */
  lemma ScorePointIs(g: Grid, r: int, c: int, visited: set<Point>, bArea: nat, wArea: nat,
                     visitedAfter: set<Point>, b: nat, w: nat)
    requires OnBoard((r, c))
    requires g[r][c] == BStone ==> visitedAfter == visited && b == bArea + 1 && w == wArea
    requires g[r][c] == WStone ==> visitedAfter == visited && b == bArea && w == wArea + 1
    requires g[r][c] == EmptyPoint && (r, c) in visited ==> visitedAfter == visited && b == bArea && w == wArea
    requires g[r][c] == EmptyPoint && (r, c) !in visited ==>
      var R := Component(g, (r, c));
      visitedAfter == visited + R &&
      b == bArea + (if Touches(g, R, BStone) && !Touches(g, R, WStone) then |R| else 0) &&
      w == wArea + (if Touches(g, R, WStone) && !Touches(g, R, BStone) then |R| else 0)
    ensures (visitedAfter, b, w) == ScanStep(g, r, c, (visited, bArea, wArea))
  {
  }

  /** The point after (r, c) in row-major order extends the points done by (r, c). */
  lemma DoneNext(r: int, c: int)
    requires OnBoard((r, c - 1))
    ensures Done(r, c) == Done(r, c - 1) + {(r, c - 1)} && (r, c - 1) !in Done(r, c - 1)
  {
    forall q ensures q in Done(r, c) <==> q in Done(r, c - 1) + {(r, c - 1)} {
      DoneIn(r, c, q);
      DoneIn(r, c - 1, q);
    }
    DoneIn(r, c - 1, (r, c - 1));
  }

  /** Passing (r, c) adds it to the stones counted when it holds one of `v`. */
  lemma StonesNext(g: Grid, r: int, c: int, v: Cell)
    requires OnBoard((r, c - 1))
    ensures |Stones(g, v) * Done(r, c)| == |Stones(g, v) * Done(r, c - 1)| + (if g[r][c - 1] == v then 1 else 0)
  {
    DoneNext(r, c);
    StonesIn(g, v, (r, c - 1));
    if g[r][c - 1] == v {
      assert Stones(g, v) * Done(r, c) == Stones(g, v) * Done(r, c - 1) + {(r, c - 1)};
    } else {
      assert Stones(g, v) * Done(r, c) == Stones(g, v) * Done(r, c - 1);
    }
  }

  /** Passing a point that is a stone or already visited keeps every empty point passed visited. */
  lemma CoveredNext(g: Grid, r: int, c: int, visited: set<Point>, more: set<Point>)
    requires OnBoard((r, c - 1)) && Covered(g, r, c - 1, visited) && visited <= more
    requires g[r][c - 1] != EmptyPoint || (r, c - 1) in more
    ensures Covered(g, r, c, more)
  {
    DoneNext(r, c);
  }

  /** A stone, or an empty point already visited: only the stone counts change. */
  lemma ScanPassed(g: Grid, r: int, c: int, st: Tally)
    requires OnBoard((r, c - 1)) && Scanned(g, r, c - 1, st)
    requires g[r][c - 1] != EmptyPoint || (r, c - 1) in st.0
    ensures Scanned(g, r, c, ScanStep(g, r, c - 1, st))
  {
    StepPassed(g, r, c - 1, st);
    CountedNext(g, r, c, st.0, BStone);
    CountedNext(g, r, c, st.0, WStone);
    CoveredNext(g, r, c, st.0, st.0);
  }

  /** The loop body at a stone or a visited point leaves `visited` alone. */
  lemma StepPassed(g: Grid, r: int, c: int, st: Tally)
    requires OnBoard((r, c)) && (g[r][c] != EmptyPoint || (r, c) in st.0)
    ensures ScanStep(g, r, c, st) ==
      (st.0, st.1 + (if g[r][c] == BStone then 1 else 0), st.2 + (if g[r][c] == WStone then 1 else 0))
  {
  }


  /** Passing (r, c - 1) adds it to the count of `v` when it is a stone of `v`. */
  lemma CountedNext(g: Grid, r: int, c: int, visited: set<Point>, v: Cell)
    requires OnBoard((r, c - 1))
    ensures Counted(g, r, c, visited, v) == Counted(g, r, c - 1, visited, v) + (if g[r][c - 1] == v then 1 else 0)
  {
    StonesNext(g, r, c, v);
  }

  /** An unvisited empty point's region is apart from the regions visited so far. */
  lemma ScanApart(g: Grid, r: int, c: int, st: Tally)
    requires OnBoard((r, c)) && Scanned(g, r, c, st) && (r, c) !in st.0
    ensures st.0 * Component(g, (r, c)) == {}
  {
    RegionApart(g, (r, c), st.0);
  }

  /** Adding an empty point's whole region keeps `visited` made of whole empty regions. */
  lemma RegionsAdd(g: Grid, visited: set<Point>, p: Point)
    requires Regions(g, visited) && OnBoard(p) && At(g, p) == EmptyPoint
    ensures Regions(g, visited + Component(g, p))
  {
    forall q | q in Component(g, p) ensures OnBoard(q) && At(g, q) == EmptyPoint {
      ComponentMembers(g, p, q);
    }
    ComponentClosed(g, p);
  }

  /** Filling an unvisited empty point's region adds it to the area of the colour that owns it. */
  lemma ScanRegion(g: Grid, r: int, c: int, st: Tally)
    requires OnBoard((r, c - 1)) && Scanned(g, r, c - 1, st)
    requires g[r][c - 1] == EmptyPoint && (r, c - 1) !in st.0
    ensures Scanned(g, r, c, ScanStep(g, r, c - 1, st))
  {
    var visited := st.0;
    var here := (r, c - 1);
    ConnectedRefl(g, here);
    CoveredNext(g, r, c, visited, visited + Component(g, here));
    RegionsAdd(g, visited, here);
    RegionApart(g, here, visited);
    CountedRegion(g, r, c, visited, BStone);
    CountedRegion(g, r, c, visited, WStone);
    assert Opponent(BStone) == WStone && Opponent(WStone) == BStone;
  }

  /** The count of `v` after the region of an unvisited empty point (r, c) is filled. */
  lemma CountedRegion(g: Grid, r: int, c: int, visited: set<Point>, v: Cell)
    requires OnBoard((r, c - 1)) && g[r][c - 1] == EmptyPoint && v != EmptyPoint
    requires visited * Component(g, (r, c - 1)) == {}
    requires forall q :: q in Component(g, (r, c - 1)) ==>
      Component(g, q) == Component(g, (r, c - 1)) && OnBoard(q) && At(g, q) == At(g, (r, c - 1))
    ensures Counted(g, r, c, visited + Component(g, (r, c - 1)), v) ==
      Counted(g, r, c - 1, visited, v) + if Owned(g, Component(g, (r, c - 1)), v) then |Component(g, (r, c - 1))| else 0
  {
    StonesNext(g, r, c, v);
    RegionCounted(g, (r, c - 1), visited, v);
  }

  /** An unvisited empty point's region shares no point with the visited regions. */
  lemma RegionApart(g: Grid, p: Point, visited: set<Point>)
    requires OnBoard(p) && p !in visited
    requires forall q :: q in visited ==> OnBoard(q) && At(g, q) == EmptyPoint
    requires Closed(g, visited, EmptyPoint)
    ensures visited * Component(g, p) == {}
    ensures forall q :: q in Component(g, p) ==> Component(g, q) == Component(g, p) && OnBoard(q) && At(g, q) == At(g, p)
  {
    forall q | q in Component(g, p) ensures Component(g, q) == Component(g, p) && OnBoard(q) && At(g, q) == At(g, p) {
      ComponentOf(g, p, q);
    }
    forall q | q in visited ensures q !in Component(g, p) {
      ClosedHasComponent(g, visited, EmptyPoint, q);
      ComponentBack(g, p, q);
    }
  }

  /** Membership of components is symmetric. */
  lemma ComponentBack(g: Grid, p: Point, q: Point)
    ensures q in Component(g, p) ==> p in Component(g, q)
  {
    if q in Component(g, p) {
      ComponentOf(g, p, q);
    }
  }

  /** Visiting a whole empty region adds it to the territory of `v` exactly when `v` owns it. */
  lemma RegionCounted(g: Grid, p: Point, visited: set<Point>, v: Cell)
    requires OnBoard(p) && At(g, p) == EmptyPoint && visited * Component(g, p) == {}
    requires forall q :: q in Component(g, p) ==> Component(g, q) == Component(g, p) && OnBoard(q) && At(g, q) == At(g, p)
    ensures |Territory(g, v) * (visited + Component(g, p))| ==
      |Territory(g, v) * visited| + if Owned(g, Component(g, p), v) then |Component(g, p)| else 0
  {
    var R := Component(g, p);
    forall q | q in R ensures q in Territory(g, v) <==> Owned(g, R, v) {
      TerritoryIn(g, v, q);
    }
    UnionCount(Territory(g, v), visited, R, Owned(g, R, v));
  }

  /** Adding a set disjoint from `visited` whose points are all in `T` or all out of it. */
  lemma UnionCount(T: set<Point>, visited: set<Point>, R: set<Point>, inside: bool)
    requires visited * R == {} && forall q :: q in R ==> (q in T <==> inside)
    ensures |T * (visited + R)| == |T * visited| + if inside then |R| else 0
  {
    var A := T * visited;
    if inside {
      assert A * R == {};
      assert T * (visited + R) == A + R;
    } else {
      assert T * (visited + R) == A;
    }
  }

  /** The row loop of calculate_score. */
  method ScoreRow(g: Grid, r: int, visited: set<Point>, bArea: nat, wArea: nat)
      returns (visitedAfter: set<Point>, b: nat, w: nat)
    requires 0 <= r < N && (visited, bArea, wArea) == ScanState(g, r, 0)
    ensures (visitedAfter, b, w) == ScanState(g, r + 1, 0)
  {
    visitedAfter, b, w := visited, bArea, wArea;
    for c := 0 to N
      invariant (visitedAfter, b, w) == ScanState(g, r, c)
    {
      visitedAfter, b, w := ScorePoint(g, r, c, visitedAfter, b, w);
    }
  }

  /** calculate_score's double loop: the area (stones plus owned empty regions) of each colour. */
  method AreaScore(g: Grid) returns (bArea: nat, wArea: nat)
    ensures bArea == Area(g, BStone) && wArea == Area(g, WStone)
  {
    bArea, wArea := 0, 0;
    var visited: set<Point> := {};
    for r := 0 to N
      invariant (visited, bArea, wArea) == ScanState(g, r, 0)
    {
      visited, bArea, wArea := ScoreRow(g, r, visited, bArea, wArea);
    }
    ScanTotals(g);
  }

  /** The score the game records: black's area, and white's area plus komi, doubled to stay whole. */
  ghost function FinalScore(g: Grid): ScoreResult {
    ScoreResult(Area(g, BStone), 2 * Area(g, WStone) + KomiDoubled)
  }

  /** The end of row r is the start of row r + 1. */
  lemma NextRow(g: Grid, r: int, st: Tally)
    requires Scanned(g, r, N, st)
    ensures Scanned(g, r + 1, 0, st)
  {
    assert Done(r, N) == Done(r + 1, 0) by {
      forall q ensures q in Done(r, N) <==> q in Done(r + 1, 0) {
        DoneIn(r, N, q);
        DoneIn(r + 1, 0, q);
      }
    }
  }

  /** After the whole grid the scan has counted each colour's area. */
  lemma ScanComplete(g: Grid, st: Tally)
    requires Scanned(g, N, 0, st)
    ensures st.1 == Area(g, BStone) && st.2 == Area(g, WStone)
  {
    var visited := st.0;
    forall v: Cell | v == BStone || v == WStone
      ensures Stones(g, v) * Done(N, 0) == Stones(g, v) && Territory(g, v) * visited == Territory(g, v)
    {
      forall q | q in Stones(g, v) ensures q in Done(N, 0) {
        StonesIn(g, v, q);
        DoneIn(N, 0, q);
      }
      forall q | q in Territory(g, v) ensures q in visited {
        TerritoryIn(g, v, q);
        DoneIn(N, 0, q);
      }
    }
  }

  /** The empty grid scanned up to nothing. */
  lemma ScanStart(g: Grid)
    ensures Scanned(g, 0, 0, ({}, 0, 0))
  {
    NothingDone();
    assert Stones(g, BStone) * {} == {} && Stones(g, WStone) * {} == {};
    assert Territory(g, BStone) * {} == {} && Territory(g, WStone) * {} == {};
  }

  lemma NothingDone()
    ensures Done(0, 0) == {}
  {
    forall q | q in Done(0, 0) ensures false {
      DoneIn(0, 0, q);
    }
  }

  /** The board part of place_stone: the stone, its captures, and the captures credited to the mover. */
  method PlayAndCredit(g: Grid, r: int, c: int, color: Cell, prisoners: map<Cell, nat>)
      returns (next: Grid, credited: map<Cell, nat>)
    requires OnBoard((r, c)) && color in prisoners
    ensures var played := Play(g, (r, c), color);
      next == played.0 && credited == prisoners[color := prisoners[color] + played.1]
  {
    var captured;
    next, captured := CaptureAround(SetAt(g, (r, c), color), r, c, Opponent(color));
    credited := prisoners[color := prisoners[color] + captured];
  }

  // ---------------------------------------------------------------------
  // The board

  class GoBoard {
    var grid: Grid
    var turn: Cell
    var lastMove: Option<Point>
    var prisoners: map<Cell, nat>   // stones captured by each colour
    var history: seq<Grid>          // every position, for the ko check
    var passed: bool
    var gameOver: bool
    var scoreRes: Option<ScoreResult>

    ghost predicate Valid()
      reads this
    {
      (turn == BStone || turn == WStone) && BStone in prisoners && WStone in prisoners
    }

    constructor ()
      ensures Valid()
      ensures grid == EmptyGrid() && turn == BStone && lastMove == None
      ensures prisoners == map[BStone := 0, WStone := 0] && history == [EmptyGrid()]
      ensures !passed && !gameOver && scoreRes == None
    {
      grid := EmptyGrid();
      turn := BStone;
      lastMove := None;
      prisoners := map[BStone := 0, WStone := 0];
      history := [];
      passed := false;
      gameOver := false;
      scoreRes := None;
      new;
      SaveState();
    }

    method SaveState()
      modifies this
      ensures history == old(history) + [grid]
      ensures grid == old(grid) && turn == old(turn) && lastMove == old(lastMove) && prisoners == old(prisoners)
      ensures passed == old(passed) && gameOver == old(gameOver) && scoreRes == old(scoreRes)
    {
      history := history + [grid];
    }

    /** is_valid_move: works on a copy of the grid and leaves the board as it is. */
    method IsValidMove(r: int, c: int, color: Cell) returns (valid: bool)
      requires OnBoard((r, c))
      ensures valid == Legal(grid, history, (r, c), color)
    {
      if grid[r][c] != EmptyPoint {
        return false;
      }
      var temp := SetAt(grid, (r, c), color);
      var opponent := Opponent(color);
      var captured;
      temp, captured := CaptureAround(temp, r, c, opponent);
      var myGrp := GetGroup(temp, r, c);
      var libs := CountLiberties(myGrp, temp);
      if libs == 0 {
        return false;
      }
      if |history| > 1 && temp == history[|history| - 2] {
        return false;
      }
      return true;
    }

    /**
     * place_stone: an illegal point changes nothing; otherwise the stone
     * is placed, the captures are made and credited to the mover, and the
     * turn passes.
     */
    method PlaceStone(r: int, c: int) returns (placed: bool)
      requires Valid() && OnBoard((r, c))
      modifies this
      ensures Valid()
      ensures placed == Legal(old(grid), old(history), (r, c), old(turn))
      ensures !placed ==> (grid == old(grid) && turn == old(turn) && lastMove == old(lastMove) &&
                           prisoners == old(prisoners) && history == old(history) && passed == old(passed))
      ensures placed ==>
        var played := Play(old(grid), (r, c), old(turn));
        (grid == played.0 && turn == Opponent(old(turn)) && lastMove == Some((r, c)) &&
         prisoners == old(prisoners)[old(turn) := old(prisoners)[old(turn)] + played.1] &&
         history == old(history) + [played.0] && !passed)
      ensures gameOver == old(gameOver) && scoreRes == old(scoreRes)
    {
      placed := IsValidMove(r, c, turn);
      if placed {
        Commit(r, c);
      }
    }

    /** The rest of place_stone once the move is known to be legal. */
    method Commit(r: int, c: int)
      requires Valid() && OnBoard((r, c))
      modifies this
      ensures Valid()
      ensures var played := Play(old(grid), (r, c), old(turn));
        grid == played.0 && turn == Opponent(old(turn)) && lastMove == Some((r, c)) &&
        prisoners == old(prisoners)[old(turn) := old(prisoners)[old(turn)] + played.1] &&
        history == old(history) + [played.0] && !passed
      ensures gameOver == old(gameOver) && scoreRes == old(scoreRes)
    {
      var next, credited := PlayAndCredit(grid, r, c, turn, prisoners);
      grid, prisoners, lastMove, turn, passed := next, credited, Some((r, c)), Opponent(turn), false;
      SaveState();
    }

    /** pass_turn: a first pass hands over the turn; a second in a row ends the game and scores it. */
    method PassTurn()
      requires Valid()
      modifies this
      ensures Valid() && grid == old(grid) && lastMove == old(lastMove) && prisoners == old(prisoners)
      ensures old(passed) ==> (gameOver && turn == old(turn) && history == old(history) && passed &&
                               scoreRes == Some(FinalScore(grid)))
      ensures !old(passed) ==> (passed && turn == Opponent(old(turn)) && history == old(history) + [grid] &&
                                gameOver == old(gameOver) && scoreRes == old(scoreRes))
    {
      if passed {
        gameOver := true;
        CalculateScore();
      } else {
        passed := true;
        turn := if turn == BStone then WStone else BStone;
        history := history + [grid];
      }
    }

    /** calculate_score: area scoring, stones plus the empty regions bordered by one colour only. */
    method CalculateScore()
      modifies this
      ensures scoreRes == Some(FinalScore(grid))
      ensures grid == old(grid) && turn == old(turn) && lastMove == old(lastMove) && prisoners == old(prisoners)
      ensures history == old(history) && passed == old(passed) && gameOver == old(gameOver)
    {
      var bArea, wArea := AreaScore(grid);
      scoreRes := Some(ScoreResult(bArea, 2 * wArea + KomiDoubled));
    }
  }
}

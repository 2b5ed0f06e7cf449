/**
 * Stratego on a 10x10 board with two lakes: piece kinds and ranks, the
 * setup pool, move generation (scouts slide, other movable pieces step),
 * combat resolution, moving with the losses recorded per side, and the
 * AI's greedy heuristic.
 */
module Stratego {
  import opened Options
  import opened Seqs

  const Rows := 10
  const Cols := 10

  /** The piece kinds, by their setup key ('10' .. '2', 'S', 'B', 'F'). */
  datatype Key = Marshal | General | Colonel | Major | Captain | Lieutenant | Sergeant | Miner | Scout | Spy | Bomb | Flag

  datatype Side = Red | Blue

  /**
   * A piece as the board holds it.  The source mutates piece objects in
   * place; here a piece is a value, and the square holding it is rewritten
   * whenever its flags change.
   */
  datatype Piece = Piece(key: Key, owner: Side, revealed: bool, moved: bool)

  type Point = (int, int)
  type Grid = seq<seq<Option<Piece>>>

  /** The setup table: rank and count per kind. */
  function Rank(k: Key): int {
    match k
    case Marshal => 10 case General => 9 case Colonel => 8 case Major => 7
    case Captain => 6 case Lieutenant => 5 case Sergeant => 4 case Miner => 3
    case Scout => 2 case Spy => 1 case Bomb => 11 case Flag => 0
  }

  function Count(k: Key): nat {
    match k
    case Marshal => 1 case General => 1 case Colonel => 2 case Major => 3
    case Captain => 4 case Lieutenant => 4 case Sergeant => 4 case Miner => 5
    case Scout => 8 case Spy => 1 case Bomb => 6 case Flag => 1
  }

  function Name(k: Key): string {
    match k
    case Marshal => "Marshal" case General => "General" case Colonel => "Colonel" case Major => "Major"
    case Captain => "Captain" case Lieutenant => "Lieut." case Sergeant => "Sergeant" case Miner => "Miner"
    case Scout => "Scout" case Spy => "Spy" case Bomb => "Bomb" case Flag => "Flag"
  }

  /** The kinds in the setup table's order. */
  function Keys(): seq<Key> {
    [Marshal, General, Colonel, Major, Captain, Lieutenant, Sergeant, Miner, Scout, Spy, Bomb, Flag]
  }

  /** Each kind has its own rank. */
  lemma RanksDistinct(a: Key, b: Key)
    ensures Rank(a) == Rank(b) <==> a == b
  {
  }

  function IsMovable(p: Piece): (r: bool)
    ensures r <==> p.key != Flag && p.key != Bomb
  {
    !(p.key in [Flag, Bomb])
  }

  function Other(s: Side): Side { if s == Blue then Red else Blue }

  // ---------------------------------------------------------------------
  // The setup pool

  function Repeat(k: Key, n: nat): seq<Key> { seq(n, _ => k) }

  /** Every kind of `ks`, each repeated by its count, in order. */
  function PoolOf(ks: seq<Key>): seq<Key> {
    if ks == [] then [] else PoolOf(ks[..|ks| - 1]) + Repeat(ks[|ks| - 1], Count(ks[|ks| - 1]))
  }

  /** How often `x` occurs in `s`. */
  function Occ(s: seq<Key>, x: Key): nat {
    if s == [] then 0 else Occ(s[..|s| - 1], x) + (if s[|s| - 1] == x then 1 else 0)
  }

  lemma {:induction false} OccConcat(a: seq<Key>, b: seq<Key>, x: Key)
    ensures Occ(a + b, x) == Occ(a, x) + Occ(b, x)
  {
    if b != [] {
      assert (a + b)[..|a + b| - 1] == a + b[..|b| - 1];
      OccConcat(a, b[..|b| - 1], x);
    } else {
      assert a + b == a;
    }
  }

  lemma {:induction false} OccRepeat(k: Key, n: nat, x: Key)
    ensures Occ(Repeat(k, n), x) == if k == x then n else 0
  {
    if n > 0 {
      assert Repeat(k, n)[..n - 1] == Repeat(k, n - 1);
      OccRepeat(k, n - 1, x);
    }
  }

  /** In the pool of distinct kinds `ks`, each kind of `ks` occurs as often as its count. */
  lemma {:induction false} PoolOfCounts(ks: seq<Key>, x: Key)
    requires forall i, j :: 0 <= i < j < |ks| ==> ks[i] != ks[j]
    ensures Occ(PoolOf(ks), x) == if x in ks then Count(x) else 0
  {
    if ks != [] {
      var pre, last := ks[..|ks| - 1], ks[|ks| - 1];
      PoolOfCounts(pre, x);
      OccConcat(PoolOf(pre), Repeat(last, Count(last)), x);
      OccRepeat(last, Count(last), x);
      assert ks == pre + [last];
      assert x == last ==> x !in pre;
    }
  }

  lemma PoolStep(ks: seq<Key>, i: int)
    requires 0 <= i < |ks|
    ensures |PoolOf(ks[..i + 1])| == |PoolOf(ks[..i])| + Count(ks[i])
  {
    assert ks[..i + 1][..i] == ks[..i];
  }

  /** Each side's pool holds 40 pieces. */
  lemma PoolSize()
    ensures |PoolOf(Keys())| == 40
  {
    var ks := Keys();
    PoolStep(ks, 0); PoolStep(ks, 1); PoolStep(ks, 2); PoolStep(ks, 3);
    PoolStep(ks, 4); PoolStep(ks, 5); PoolStep(ks, 6); PoolStep(ks, 7);
    PoolStep(ks, 8); PoolStep(ks, 9); PoolStep(ks, 10); PoolStep(ks, 11);
    assert ks[..12] == ks && ks[..0] == [];
  }

  /** Each side's pool holds every kind as often as the setup table says. */
  lemma PoolContents(x: Key)
    ensures Occ(PoolOf(Keys()), x) == Count(x)
  {
    var ks := Keys();
    forall i, j | 0 <= i < j < |ks| ensures ks[i] != ks[j] {
      RanksDistinct(ks[i], ks[j]);
    }
    PoolOfCounts(ks, x);
  }


  /** The pool loop of setup_pieces: each kind, count times, in table order. */
  method BuildPool() returns (pool: seq<Key>)
    ensures pool == PoolOf(Keys())
  {
    pool := [];
    var ks := Keys();
    for i := 0 to |ks|
      invariant pool == PoolOf(ks[..i])
    {
      assert ks[..i + 1][..i] == ks[..i];
      for n := 0 to Count(ks[i])
        invariant pool == PoolOf(ks[..i]) + Repeat(ks[i], n)
      {
        assert Repeat(ks[i], n + 1) == Repeat(ks[i], n) + [ks[i]];
        pool := pool + [ks[i]];
      }
    }
    assert ks[..|ks|] == ks;
  }

  // ---------------------------------------------------------------------
  // Board geometry and move generation

  predicate GridOk(g: Grid) {
    |g| == Rows && forall i :: 0 <= i < Rows ==> |g[i]| == Cols
  }

  predicate OnBoard(p: Point) { 0 <= p.0 < Rows && 0 <= p.1 < Cols }

  /** The two lakes: rows 4-5, columns 2-3 and 6-7. */
  predicate IsWater(r: int, c: int) {
    (r == 4 || r == 5) && (c == 2 || c == 3 || c == 6 || c == 7)
  }

  function At(g: Grid, p: Point): Option<Piece>
    requires GridOk(g) && OnBoard(p)
  {
    g[p.0][p.1]
  }

  /** The four directions, in the order they are searched: up, down, left, right. */
  function Dirs(): seq<(int, int)> { [(-1, 0), (1, 0), (0, -1), (0, 1)] }

  predicate Unit(dr: int, dc: int) {
    (dr == -1 && dc == 0) || (dr == 1 && dc == 0) || (dr == 0 && dc == -1) || (dr == 0 && dc == 1)
  }

  lemma DirUnit(i: int)
    requires 0 <= i < 4
    ensures Unit(Dirs()[i].0, Dirs()[i].1)
  {
  }

  /** How many squares remain on the board going (dr, dc) from (nr, nc), inclusive. */
  function Remaining(nr: int, nc: int, dr: int, dc: int): int {
    if dr == 1 then Rows - nr else if dr == -1 then nr + 1 else if dc == 1 then Cols - nc else nc + 1
  }

  /** The square `k` steps from (nr, nc) in direction (dr, dc). */
  function Sq(nr: int, nc: int, dr: int, dc: int, k: int): Point {
    (if dr == 1 then nr + k else if dr == -1 then nr - k else nr,
     if dc == 1 then nc + k else if dc == -1 then nc - k else nc)
  }

  /** A square a piece can pass over: on the board, dry and empty. */
  predicate Clear(g: Grid, p: Point)
    requires GridOk(g)
  {
    OnBoard(p) && !IsWater(p.0, p.1) && At(g, p) == None
  }

  /** A square a piece of `owner` can end on: on the board, dry, and empty or enemy-held. */
  predicate Landable(g: Grid, p: Point, owner: Side)
    requires GridOk(g)
  {
    OnBoard(p) && !IsWater(p.0, p.1) && (At(g, p) == None || At(g, p).value.owner != owner)
  }

  /** The squares reached going (dr, dc) starting at (nr, nc); only a scout goes past the first. */
  function Ray(g: Grid, owner: Side, scout: bool, nr: int, nc: int, dr: int, dc: int): seq<Point>
    requires GridOk(g) && Unit(dr, dc)
    decreases Remaining(nr, nc, dr, dc)
  {
    if !(0 <= nr < Rows && 0 <= nc < Cols) || IsWater(nr, nc) then []
    else match g[nr][nc]
      case None => [(nr, nc)] + (if scout then Ray(g, owner, scout, nr + dr, nc + dc, dr, dc) else [])
      case Some(t) => if t.owner != owner then [(nr, nc)] else []
  }

  /** Every square before the `k`-th along the ray is clear. */
  predicate PathClear(g: Grid, nr: int, nc: int, dr: int, dc: int, k: int)
    requires GridOk(g)
  {
    forall j :: 0 <= j < k ==> Clear(g, Sq(nr, nc, dr, dc, j))
  }

  /** `t` is `k` steps along, can be landed on, and the way there is clear; only a scout goes further than one. */
  predicate Reaches(g: Grid, owner: Side, scout: bool, nr: int, nc: int, dr: int, dc: int, t: Point, k: nat)
    requires GridOk(g)
  {
    t == Sq(nr, nc, dr, dc, k) && (scout || k == 0) && Landable(g, t, owner) && PathClear(g, nr, nc, dr, dc, k)
  }

  lemma SqShift(nr: int, nc: int, dr: int, dc: int, j: int)
    requires Unit(dr, dc)
    ensures Sq(nr, nc, dr, dc, j + 1) == Sq(nr + dr, nc + dc, dr, dc, j)
  {
  }

  /** A clear first square in front of a clear path is a clear path one step longer. */
  lemma PathExtend(g: Grid, nr: int, nc: int, dr: int, dc: int, k: nat)
    requires GridOk(g) && Unit(dr, dc)
    requires Clear(g, (nr, nc)) && PathClear(g, nr + dr, nc + dc, dr, dc, k)
    ensures PathClear(g, nr, nc, dr, dc, k + 1)
  {
    forall j | 0 <= j < k + 1 ensures Clear(g, Sq(nr, nc, dr, dc, j)) {
      if j > 0 {
        SqShift(nr, nc, dr, dc, j - 1);
        assert Clear(g, Sq(nr + dr, nc + dc, dr, dc, j - 1));
      }
    }
  }

  /** A clear path one step longer is a clear first square in front of a clear path. */
  lemma PathTail(g: Grid, nr: int, nc: int, dr: int, dc: int, k: nat)
    requires GridOk(g) && Unit(dr, dc) && PathClear(g, nr, nc, dr, dc, k + 1)
    ensures Clear(g, (nr, nc)) && PathClear(g, nr + dr, nc + dc, dr, dc, k)
  {
    assert Clear(g, Sq(nr, nc, dr, dc, 0));
    var nr', nc' := nr + dr, nc + dc;
    forall j | 0 <= j < k ensures Clear(g, Sq(nr', nc', dr, dc, j)) {
      SqShift(nr, nc, dr, dc, j);
      assert Clear(g, Sq(nr, nc, dr, dc, j + 1));
    }
  }

  /** The first square of a ray is landable; any later square lies beyond a clear first square, for a scout. */
  lemma RayHead(g: Grid, owner: Side, scout: bool, nr: int, nc: int, dr: int, dc: int, t: Point)
    requires GridOk(g) && Unit(dr, dc) && t in Ray(g, owner, scout, nr, nc, dr, dc)
    ensures t == (nr, nc) ==> Landable(g, t, owner)
    ensures t != (nr, nc) ==> Clear(g, (nr, nc)) && scout && t in Ray(g, owner, scout, nr + dr, nc + dc, dr, dc)
  {
  }

  lemma OffBoardRay(g: Grid, owner: Side, scout: bool, nr: int, nc: int, dr: int, dc: int)
    requires GridOk(g) && Unit(dr, dc)
    ensures !OnBoard((nr, nc)) ==> Ray(g, owner, scout, nr, nc, dr, dc) == []
  {
  }

  /** Every square on the ray is reached over clear squares. */
  lemma {:induction false} RaySound(g: Grid, owner: Side, scout: bool, nr: int, nc: int, dr: int, dc: int, t: Point)
      returns (k: nat)
    requires GridOk(g) && Unit(dr, dc) && t in Ray(g, owner, scout, nr, nc, dr, dc)
    ensures Reaches(g, owner, scout, nr, nc, dr, dc, t, k)
    decreases Remaining(nr, nc, dr, dc)
  {
    RayHead(g, owner, scout, nr, nc, dr, dc, t);
    if t == (nr, nc) {
      k := 0;
      assert Sq(nr, nc, dr, dc, 0) == (nr, nc);
    } else {
      var k' := RaySound(g, owner, scout, nr + dr, nc + dc, dr, dc, t);
      k := k' + 1;
      PathExtend(g, nr, nc, dr, dc, k');
      SqShift(nr, nc, dr, dc, k');
    }
  }

  /** Every square reached over clear squares is on the ray. */
  lemma {:induction false} RayComplete(g: Grid, owner: Side, scout: bool, nr: int, nc: int, dr: int, dc: int, t: Point, k: nat)
    requires GridOk(g) && Unit(dr, dc) && Reaches(g, owner, scout, nr, nc, dr, dc, t, k)
    ensures t in Ray(g, owner, scout, nr, nc, dr, dc)
    decreases k
  {
    if k == 0 {
      assert t == (nr, nc);
    } else {
      PathTail(g, nr, nc, dr, dc, k - 1);
      SqShift(nr, nc, dr, dc, k - 1);
      RayComplete(g, owner, scout, nr + dr, nc + dc, dr, dc, t, k - 1);
    }
  }

  /** A square is on the ray exactly when it is reached over clear squares. */
  lemma RayIs(g: Grid, owner: Side, scout: bool, nr: int, nc: int, dr: int, dc: int, t: Point)
    requires GridOk(g) && Unit(dr, dc)
    ensures t in Ray(g, owner, scout, nr, nc, dr, dc) <==> exists k: nat :: Reaches(g, owner, scout, nr, nc, dr, dc, t, k)
  {
    if t in Ray(g, owner, scout, nr, nc, dr, dc) {
      var k := RaySound(g, owner, scout, nr, nc, dr, dc, t);
    }
    forall k: nat | Reaches(g, owner, scout, nr, nc, dr, dc, t, k) ensures t in Ray(g, owner, scout, nr, nc, dr, dc) {
      RayComplete(g, owner, scout, nr, nc, dr, dc, t, k);
    }
  }

  /** The targets of the piece on (r, c), direction by direction; none for an empty square, a bomb or a flag. */
  function ValidMoves(g: Grid, r: int, c: int): seq<Point>
    requires GridOk(g) && OnBoard((r, c))
  {
    match g[r][c]
    case None => []
    case Some(p) => if !IsMovable(p) then [] else RaysFrom(g, p, r, c, 4)
  }

  function RaysFrom(g: Grid, p: Piece, r: int, c: int, n: int): seq<Point>
    requires GridOk(g) && 0 <= n <= 4
  {
    if n == 0 then []
    else
      var d := Dirs()[n - 1];
      RaysFrom(g, p, r, c, n - 1) + Ray(g, p.owner, p.key == Scout, r + d.0, c + d.1, d.0, d.1)
  }

  lemma RaysFromStep(g: Grid, p: Piece, r: int, c: int, n: int, t: Point)
    requires GridOk(g) && 0 < n <= 4
    ensures var d := Dirs()[n - 1];
      t in RaysFrom(g, p, r, c, n) <==> t in RaysFrom(g, p, r, c, n - 1) || t in Ray(g, p.owner, p.key == Scout, r + d.0, c + d.1, d.0, d.1)
  {
  }

  /** Every square of the first `n` rays lies on the ray of one direction. */
  lemma {:induction false} RaysFromDir(g: Grid, p: Piece, r: int, c: int, n: int, t: Point) returns (dr: int, dc: int)
    requires GridOk(g) && 0 <= n <= 4 && t in RaysFrom(g, p, r, c, n)
    ensures Unit(dr, dc) && t in Ray(g, p.owner, p.key == Scout, r + dr, c + dc, dr, dc)
  {
    RaysFromStep(g, p, r, c, n, t);
    if t in RaysFrom(g, p, r, c, n - 1) {
      dr, dc := RaysFromDir(g, p, r, c, n - 1, t);
    } else {
      dr, dc := Dirs()[n - 1].0, Dirs()[n - 1].1;
      DirUnit(n - 1);
    }
  }

  /**
   * Every target is reached in one of the four directions over clear
   * squares: on the board, off the lakes, empty or enemy-held; a piece
   * other than a scout moves one square.
   */
  lemma ValidMovesReach(g: Grid, r: int, c: int, t: Point) returns (dr: int, dc: int, k: nat)
    requires GridOk(g) && OnBoard((r, c)) && t in ValidMoves(g, r, c)
    ensures g[r][c].Some? && IsMovable(g[r][c].value) && Unit(dr, dc)
    ensures Reaches(g, g[r][c].value.owner, g[r][c].value.key == Scout, r + dr, c + dc, dr, dc, t, k)
  {
    var p := g[r][c].value;
    dr, dc := RaysFromDir(g, p, r, c, 4, t);
    k := RaySound(g, p.owner, p.key == Scout, r + dr, c + dc, dr, dc, t);
  }

  /** No move ever lands on water or on an own piece, and the start square is never a target. */
  lemma TargetsLandable(g: Grid, r: int, c: int, t: Point)
    requires GridOk(g) && OnBoard((r, c)) && t in ValidMoves(g, r, c)
    ensures OnBoard(t) && !IsWater(t.0, t.1) && t != (r, c)
    ensures At(g, t) == None || At(g, t).value.owner != g[r][c].value.owner
  {
    var dr, dc, k := ValidMovesReach(g, r, c, t);
  }

  // ---------------------------------------------------------------------
  // Combat

  datatype Res = Win | WinCombat | Defuse | LoseCombat | Draw

  /** resolve_combat's rules, in order: flag, spy on marshal, miner on bomb, then rank. */
  function Outcome(a: Key, d: Key): Res {
    if d == Flag then Win
    else if a == Spy && d == Marshal then WinCombat
    else if a == Miner && d == Bomb then Defuse
    else if Rank(a) > Rank(d) then WinCombat
    else if Rank(a) < Rank(d) then LoseCombat
    else Draw
  }

  function ResultText(a: Key, d: Key): string {
    if d == Flag then "FLAG CAPTURED!"
    else if a == Spy && d == Marshal then "SPY ASSASSINATES MARSHAL!"
    else if a == Miner && d == Bomb then "MINER DEFUSES BOMB!"
    else if Rank(a) > Rank(d) then Name(a) + " WINS"
    else if Rank(a) < Rank(d) then Name(d) + " WINS"
    else "MUTUAL DESTRUCTION"
  }

  /** Only equal kinds trade: a draw happens exactly when both pieces are the same kind (and not a flag). */
  lemma DrawIffSameKind(a: Key, d: Key)
    ensures Outcome(a, d) == Draw <==> a == d && d != Flag
  {
    RanksDistinct(a, d);
  }

  /** A bomb stops every movable attacker except a miner. */
  lemma BombStops(a: Key)
    requires a != Flag && a != Bomb
    ensures Outcome(a, Bomb) == (if a == Miner then Defuse else LoseCombat)
  {
  }

  /** Between ordinary pieces combat is decided by rank, symmetrically. */
  lemma RankDecides(a: Key, d: Key)
    requires a !in [Flag, Bomb, Spy] && d !in [Flag, Bomb, Spy]
    ensures Outcome(a, d) == WinCombat <==> Outcome(d, a) == LoseCombat
    ensures Outcome(a, d) == WinCombat <==> Rank(a) > Rank(d)
  {
  }

  /** The spy wins only when it strikes the marshal first. */
  lemma SpyOnlyStrikes(d: Key)
    requires d != Flag && d != Spy
    ensures Outcome(Spy, d) == (if d == Marshal then WinCombat else LoseCombat)
    ensures d == Marshal ==> Outcome(Marshal, Spy) == WinCombat
  {
  }

  function Revealed(p: Piece): Piece { p.(revealed := true) }

  /** The piece left standing: the attacker unless it lost; nobody after a trade. */
  function Survivor(a: Piece, d: Piece): Option<Piece> {
    match Outcome(a.key, d.key)
    case LoseCombat => Some(Revealed(d))
    case Draw => None
    case _ => Some(Revealed(a))
  }

  // ---------------------------------------------------------------------
  // Moving

  function Put(g: Grid, p: Point, x: Option<Piece>): Grid
    requires GridOk(g) && OnBoard(p)
  {
    g[p.0 := g[p.0][p.1 := x]]
  }

  /** The attacker as it moves: marked as moved, and revealed when it fights. */
  function Mover(g: Grid, s: Point, e: Point): Piece
    requires GridOk(g) && OnBoard(s) && OnBoard(e) && At(g, s).Some?
  {
    var a := At(g, s).value.(moved := true);
    if At(g, e).Some? then Revealed(a) else a
  }

  /** The board after the piece on `s` moves to `e`. */
  function GridAfter(g: Grid, s: Point, e: Point): Grid
    requires GridOk(g) && OnBoard(s) && OnBoard(e) && At(g, s).Some?
  {
    var a := Mover(g, s, e);
    match At(g, e)
    case None => Put(Put(g, e, Some(a)), s, None)
    case Some(d) =>
      match Outcome(a.key, d.key)
      case LoseCombat => Put(Put(g, e, Some(Revealed(d))), s, None)
      case Draw => Put(Put(g, s, None), e, None)
      case _ => Put(Put(g, e, Some(a)), s, None)
  }

  /** The pieces move_piece records as lost, in the order it records them; a captured flag is not recorded. */
  function Losses(g: Grid, s: Point, e: Point): seq<Piece>
    requires GridOk(g) && OnBoard(s) && OnBoard(e) && At(g, s).Some?
  {
    var a := Mover(g, s, e);
    match At(g, e)
    case None => []
    case Some(d) =>
      match Outcome(a.key, d.key)
      case Win => []
      case WinCombat => [Revealed(d)]
      case Defuse => [Revealed(d)]
      case LoseCombat => [a]
      case Draw => [a, Revealed(d)]
  }

  /** The keys of the pieces of `side` among `ps`. */
  function KeysOf(ps: seq<Piece>, side: Side): seq<Key> {
    if ps == [] then [] else KeysOf(ps[..|ps| - 1], side) + (if ps[|ps| - 1].owner == side then [ps[|ps| - 1].key] else [])
  }

  // How many pieces of one side and kind stand on the board.

  function Has(x: Option<Piece>, side: Side, k: Key): nat {
    if x.Some? && x.value.owner == side && x.value.key == k then 1 else 0
  }

  /** The pieces of `side` and kind `k` among the first `n` squares of a row. */
  function RowCount(row: seq<Option<Piece>>, n: int, side: Side, k: Key): nat
    requires n <= |row|
  {
    if n <= 0 then 0 else RowCount(row, n - 1, side, k) + Has(row[n - 1], side, k)
  }

  /** The pieces of `side` and kind `k` in the first `n` rows. */
  function GridCount(g: seq<seq<Option<Piece>>>, n: int, side: Side, k: Key): nat
    requires n <= |g|
  {
    if n <= 0 then 0 else GridCount(g, n - 1, side, k) + RowCount(g[n - 1], |g[n - 1]|, side, k)
  }

  /** The pieces of `side` and kind `k` on the whole board. */
  function BoardCount(g: seq<seq<Option<Piece>>>, side: Side, k: Key): nat {
    GridCount(g, |g|, side, k)
  }

  function LostCount(ps: seq<Piece>, side: Side, k: Key): nat {
    if ps == [] then 0 else LostCount(ps[..|ps| - 1], side, k) + Has(Some(ps[|ps| - 1]), side, k)
  }

  lemma {:induction false} RowCountUpdate(row: seq<Option<Piece>>, c: int, x: Option<Piece>, n: int, side: Side, k: Key)
    requires 0 <= c < |row| && n <= |row|
    ensures RowCount(row[c := x], n, side, k) + (if c < n then Has(row[c], side, k) else 0)
         == RowCount(row, n, side, k) + (if c < n then Has(x, side, k) else 0)
  {
    if n > 0 {
      RowCountUpdate(row, c, x, n - 1, side, k);
    }
  }

  lemma {:induction false} GridCountUpdate(g: seq<seq<Option<Piece>>>, r: int, row: seq<Option<Piece>>, n: int, side: Side, k: Key)
    requires 0 <= r < |g| && n <= |g|
    ensures GridCount(g[r := row], n, side, k) + (if r < n then RowCount(g[r], |g[r]|, side, k) else 0)
         == GridCount(g, n, side, k) + (if r < n then RowCount(row, |row|, side, k) else 0)
  {
    if n > 0 {
      GridCountUpdate(g, r, row, n - 1, side, k);
    }
  }

  /** Writing one square swaps that square's piece for the new one in the board's count. */
  lemma PutCount(g: Grid, p: Point, x: Option<Piece>, side: Side, k: Key)
    requires GridOk(g) && OnBoard(p)
    ensures GridOk(Put(g, p, x))
    ensures BoardCount(Put(g, p, x), side, k) + Has(At(g, p), side, k) == BoardCount(g, side, k) + Has(x, side, k)
  {
    RowCountUpdate(g[p.0], p.1, x, Cols, side, k);
    GridCountUpdate(g, p.0, g[p.0][p.1 := x], Rows, side, k);
  }

  /** Writing two different squares swaps both squares' pieces in the board's count. */
  lemma PutTwiceCount(g: Grid, p: Point, x: Option<Piece>, q: Point, y: Option<Piece>, side: Side, k: Key)
    requires GridOk(g) && OnBoard(p) && OnBoard(q) && p != q
    ensures GridOk(Put(Put(g, p, x), q, y))
    ensures BoardCount(Put(Put(g, p, x), q, y), side, k) + Has(At(g, p), side, k) + Has(At(g, q), side, k)
         == BoardCount(g, side, k) + Has(x, side, k) + Has(y, side, k)
  {
    PutCount(g, p, x, side, k);
    var g1 := Put(g, p, x);
    assert At(g1, q) == At(g, q);
    PutCount(g1, q, y, side, k);
  }

  lemma LostOne(a: Piece, side: Side, k: Key)
    ensures LostCount([a], side, k) == Has(Some(a), side, k)
  {
    assert [a][..0] == [];
  }

  lemma LostPair(a: Piece, b: Piece, side: Side, k: Key)
    ensures LostCount([a, b], side, k) == Has(Some(a), side, k) + Has(Some(b), side, k)
  {
    assert [a, b][..1] == [a];
    LostOne(a, side, k);
  }

  /** The flag term of MoveKeepsPieces: a captured flag, counted once for its side and kind. */
  function FlagTaken(g: Grid, e: Point, side: Side, k: Key): nat
    requires GridOk(g) && OnBoard(e)
  {
    if At(g, e).Some? && At(g, e).value.key == Flag then Has(At(g, e), side, k) else 0
  }

  /**
   * For one side and kind: the pieces on the board after the move from
   * `s` to `e`, plus those it records as lost, plus a captured flag, are
   * the pieces before it.
   */
  predicate Keeps(g: Grid, s: Point, e: Point, side: Side, k: Key)
    requires GridOk(g) && OnBoard(s) && OnBoard(e) && At(g, s).Some?
  {
    GridOk(GridAfter(g, s, e)) &&
    BoardCount(GridAfter(g, s, e), side, k) + LostCount(Losses(g, s, e), side, k) + FlagTaken(g, e, side, k) == BoardCount(g, side, k)
  }

  lemma KeepsOnEmpty(g: Grid, s: Point, e: Point, side: Side, k: Key)
    requires GridOk(g) && OnBoard(s) && OnBoard(e) && s != e && At(g, s).Some? && At(g, e).None?
    ensures Keeps(g, s, e, side, k)
  {
    var a := Mover(g, s, e);
    assert Has(Some(a), side, k) == Has(At(g, s), side, k);
    PutTwiceCount(g, e, Some(a), s, None, side, k);
    assert GridAfter(g, s, e) == Put(Put(g, e, Some(a)), s, None);
  }

  lemma KeepsOnDraw(g: Grid, s: Point, e: Point, side: Side, k: Key)
    requires GridOk(g) && OnBoard(s) && OnBoard(e) && s != e && At(g, s).Some? && At(g, e).Some?
    requires Outcome(At(g, s).value.key, At(g, e).value.key) == Draw
    ensures Keeps(g, s, e, side, k)
  {
    var a, rd := Mover(g, s, e), Revealed(At(g, e).value);
    assert Has(Some(a), side, k) == Has(At(g, s), side, k);
    assert Has(Some(rd), side, k) == Has(At(g, e), side, k);
    PutTwiceCount(g, s, None, e, None, side, k);
    LostPair(a, rd, side, k);
    assert GridAfter(g, s, e) == Put(Put(g, s, None), e, None) && Losses(g, s, e) == [a, rd];
  }

  lemma KeepsOnLoss(g: Grid, s: Point, e: Point, side: Side, k: Key)
    requires GridOk(g) && OnBoard(s) && OnBoard(e) && s != e && At(g, s).Some? && At(g, e).Some?
    requires Outcome(At(g, s).value.key, At(g, e).value.key) == LoseCombat
    ensures Keeps(g, s, e, side, k)
  {
    var a, rd := Mover(g, s, e), Revealed(At(g, e).value);
    assert Has(Some(a), side, k) == Has(At(g, s), side, k);
    assert Has(Some(rd), side, k) == Has(At(g, e), side, k);
    PutTwiceCount(g, e, Some(rd), s, None, side, k);
    LostOne(a, side, k);
    assert GridAfter(g, s, e) == Put(Put(g, e, Some(rd)), s, None) && Losses(g, s, e) == [a];
  }

  lemma KeepsOnCapture(g: Grid, s: Point, e: Point, side: Side, k: Key)
    requires GridOk(g) && OnBoard(s) && OnBoard(e) && s != e && At(g, s).Some? && At(g, e).Some?
    requires At(g, e).value.key == Flag
    ensures Keeps(g, s, e, side, k)
  {
    var a := Mover(g, s, e);
    assert Has(Some(a), side, k) == Has(At(g, s), side, k);
    PutTwiceCount(g, e, Some(a), s, None, side, k);
    assert GridAfter(g, s, e) == Put(Put(g, e, Some(a)), s, None);
    assert Losses(g, s, e) == [];
  }

  lemma KeepsOnWin(g: Grid, s: Point, e: Point, side: Side, k: Key)
    requires GridOk(g) && OnBoard(s) && OnBoard(e) && s != e && At(g, s).Some? && At(g, e).Some?
    requires Outcome(At(g, s).value.key, At(g, e).value.key) in {WinCombat, Defuse}
    ensures Keeps(g, s, e, side, k)
  {
    var a, rd := Mover(g, s, e), Revealed(At(g, e).value);
    assert Has(Some(a), side, k) == Has(At(g, s), side, k);
    assert Has(Some(rd), side, k) == Has(At(g, e), side, k);
    PutTwiceCount(g, e, Some(a), s, None, side, k);
    assert GridAfter(g, s, e) == Put(Put(g, e, Some(a)), s, None);
    LostOne(rd, side, k);
    assert Losses(g, s, e) == [rd];
  }

  /**
   * Nothing is created or lost without a record: for every side and kind,
   * the pieces on the board after a move plus those it records as lost are
   * the pieces before it, except that a captured flag leaves the board
   * unrecorded.
   */
  lemma MoveKeepsPieces(g: Grid, s: Point, e: Point, side: Side, k: Key)
    requires GridOk(g) && OnBoard(s) && OnBoard(e) && s != e && At(g, s).Some?
    ensures Keeps(g, s, e, side, k)
  {
    if At(g, e).None? {
      KeepsOnEmpty(g, s, e, side, k);
    } else {
      var o := Outcome(At(g, s).value.key, At(g, e).value.key);
      if o == Draw {
        KeepsOnDraw(g, s, e, side, k);
      } else if o == LoseCombat {
        KeepsOnLoss(g, s, e, side, k);
      } else if o == Win {
        KeepsOnCapture(g, s, e, side, k);
      } else {
        KeepsOnWin(g, s, e, side, k);
      }
    }
  }

  // ---------------------------------------------------------------------
  // The AI heuristic

  /**
   * The heuristic for moving from `s` to `e`: against a revealed defender
   * ten times the loser's rank, won or lost; against a hidden one +5 for a
   * low-ranked attacker and -5 for a high-ranked one; +1 for an advance
   * into an empty square.
   */
  function AiScore(g: Grid, s: Point, e: Point): int {
    if !(GridOk(g) && OnBoard(s) && OnBoard(e) && At(g, s).Some?) then 0
    else
      var a := At(g, s).value;
      match At(g, e)
      case Some(d) =>
        if d.revealed then
          (if Rank(a.key) > Rank(d.key) then Rank(d.key) * 10 else if Rank(a.key) < Rank(d.key) then -(Rank(a.key) * 10) else 0)
        else
          (if Rank(a.key) < 4 then 5 else if Rank(a.key) > 8 then -5 else 0)
      case None => if e.0 > s.0 then 1 else 0
  }

  /** A move the AI may consider: from a red piece to a different square, empty or blue-held. */
  predicate Considered(g: Grid, m: (Point, Point))
    requires GridOk(g)
  {
    OnBoard(m.0) && OnBoard(m.1) && m.0 != m.1 && At(g, m.0).Some? && At(g, m.0).value.owner == Red &&
    (At(g, m.1) == None || At(g, m.1).value.owner == Blue)
  }

  /** The targets of every square, as the AI's scan asks for them. */
  function Targets(g: Grid): (int, int) -> seq<Point> {
    (r: int, c: int) => if GridOk(g) && OnBoard((r, c)) then ValidMoves(g, r, c) else []
  }

  predicate RedAt(g: Grid, r: int, c: int)
    requires GridOk(g) && OnBoard((r, c))
  {
    g[r][c].Some? && g[r][c].value.owner == Red
  }

  /** The red moves from the squares of row `r` before column `n`, each square's targets given by `gen`. */
  function RowMoves(g: Grid, gen: (int, int) -> seq<Point>, r: int, n: int): seq<(Point, Point)>
    requires GridOk(g) && 0 <= r < Rows && n <= Cols
    decreases n
  {
    if n <= 0 then []
    else RowMoves(g, gen, r, n - 1) + (if RedAt(g, r, n - 1) then Pair((r, n - 1), gen(r, n - 1)) else [])
  }

  function Pair(s: Point, ts: seq<Point>): seq<(Point, Point)> {
    if ts == [] then [] else Pair(s, ts[..|ts| - 1]) + [(s, ts[|ts| - 1])]
  }

  /** The red moves of rows 0 .. n-1, in the AI's scan order. */
  function RedMoves(g: Grid, gen: (int, int) -> seq<Point>, n: int): seq<(Point, Point)>
    requires GridOk(g) && n <= Rows
    decreases n
  {
    if n <= 0 then [] else RedMoves(g, gen, n - 1) + RowMoves(g, gen, n - 1, |g[n - 1]|)
  }

  lemma {:induction false} PairMembers(s: Point, ts: seq<Point>, m: (Point, Point))
    ensures m in Pair(s, ts) <==> m.0 == s && m.1 in ts
  {
    if ts != [] {
      PairMembers(s, ts[..|ts| - 1], m);
      assert ts == ts[..|ts| - 1] + [ts[|ts| - 1]];
    }
  }

  lemma {:induction false} RowMovesMembers(g: Grid, gen: (int, int) -> seq<Point>, r: int, n: int, m: (Point, Point))
    requires GridOk(g) && 0 <= r < Rows && n <= Cols
    ensures m in RowMoves(g, gen, r, n) <==>
      m.0.0 == r && 0 <= m.0.1 < n && RedAt(g, r, m.0.1) && m.1 in gen(r, m.0.1)
    decreases n
  {
    if n > 0 {
      RowMovesMembers(g, gen, r, n - 1, m);
      PairMembers((r, n - 1), gen(r, n - 1), m);
      RowMovesStep(g, gen, r, n, m);
    }
  }

  lemma {:induction false} RedMovesMembers(g: Grid, gen: (int, int) -> seq<Point>, n: int, m: (Point, Point))
    requires GridOk(g) && n <= Rows
    ensures m in RedMoves(g, gen, n) <==>
      0 <= m.0.0 < n && 0 <= m.0.1 < Cols && RedAt(g, m.0.0, m.0.1) && m.1 in gen(m.0.0, m.0.1)
    decreases n
  {
    if n > 0 {
      RedMovesMembers(g, gen, n - 1, m);
      RowMovesMembers(g, gen, n - 1, |g[n - 1]|, m);
      RedMovesStep(g, gen, n, m);
    }
  }

  lemma RowMovesStep(g: Grid, gen: (int, int) -> seq<Point>, r: int, n: int, m: (Point, Point))
    requires GridOk(g) && 0 <= r < Rows && 0 < n <= Cols
    ensures m in RowMoves(g, gen, r, n) <==>
      m in RowMoves(g, gen, r, n - 1) || (RedAt(g, r, n - 1) && m in Pair((r, n - 1), gen(r, n - 1)))
  {
  }

  lemma RedMovesStep(g: Grid, gen: (int, int) -> seq<Point>, n: int, m: (Point, Point))
    requires GridOk(g) && 0 < n <= Rows
    ensures m in RedMoves(g, gen, n) <==> m in RedMoves(g, gen, n - 1) || m in RowMoves(g, gen, n - 1, |g[n - 1]|)
  {
  }

  /** Every red move on the board, row by row and column by column. */
  function AiMoves(g: Grid): seq<(Point, Point)>
    requires GridOk(g)
  {
    RedMoves(g, Targets(g), |g|)
  }

  /** The AI considers exactly the targets of the red pieces. */
  lemma RedMovesAre(g: Grid, m: (Point, Point))
    requires GridOk(g)
    ensures m in AiMoves(g) <==>
      OnBoard(m.0) && At(g, m.0).Some? && At(g, m.0).value.owner == Red && m.1 in ValidMoves(g, m.0.0, m.0.1)
  {
    RedMovesMembers(g, Targets(g), |g|, m);
  }

  /** Every move the AI considers goes from a red piece to an empty or blue square. */
  lemma RedMovesConsidered(g: Grid, m: (Point, Point))
    requires GridOk(g) && m in AiMoves(g)
    ensures Considered(g, m)
  {
    RedMovesAre(g, m);
    TargetsLandable(g, m.0.0, m.0.1, m.1);
  }

  /** `ms[k]` scores highest, and every earlier move scores strictly less. */
  predicate FirstBest(g: Grid, ms: seq<(Point, Point)>, k: int) {
    0 <= k < |ms| &&
    (forall j :: 0 <= j < |ms| ==> AiScore(g, ms[j].0, ms[j].1) <= AiScore(g, ms[k].0, ms[k].1)) &&
    (forall j :: 0 <= j < k ==> AiScore(g, ms[j].0, ms[j].1) < AiScore(g, ms[k].0, ms[k].1))
  }

  // ---------------------------------------------------------------------
  // The board object

  class Board {
    var grid: Grid
    var turn: Side
    var winner: Option<Side>
    var capturedRedKeys: seq<Key>
    var capturedBlueKeys: seq<Key>
    var combatActive: bool
    var combatAttacker: Option<Piece>
    var combatDefender: Option<Piece>
    var combatResult: string
    var combatTimer: int

    method GetValidMoves(r: int, c: int) returns (moves: seq<Point>)
      requires GridOk(grid) && OnBoard((r, c))
      ensures moves == ValidMoves(grid, r, c)
    {
      var p := grid[r][c];
      if p == None || !IsMovable(p.value) {
        return [];
      }
      moves := [];
      var isScout := p.value.key == Scout;
      for i := 0 to 4
        invariant moves == RaysFrom(grid, p.value, r, c, i)
      {
        var d := Dirs()[i];
        var found := Scan(r, c, d.0, d.1, p.value.owner, isScout);
        moves := moves + found;
      }
    }

    /** One direction of get_valid_moves' while loop. */
    method Scan(r: int, c: int, dr: int, dc: int, owner: Side, scout: bool) returns (found: seq<Point>)
      requires GridOk(grid) && Unit(dr, dc)
      ensures found == Ray(grid, owner, scout, r + dr, c + dc, dr, dc)
    {
      var g := grid;
      found := [];
      var nr, nc := r + dr, c + dc;
      while 0 <= nr < Rows && 0 <= nc < Cols
        invariant ScanSoFar(g, owner, scout, r + dr, c + dc, dr, dc, found, nr, nc)
        decreases Remaining(nr, nc, dr, dc)
      {
        var go;
        found, go := ScanSquare(g, r + dr, c + dc, dr, dc, owner, scout, found, nr, nc);
        if !go {
          return;
        }
        nr, nc := nr + dr, nc + dc;
      }
      ScanEnd(g, owner, scout, r + dr, c + dc, dr, dc, found, nr, nc);
    }

    method RecordLoss(piece: Piece)
      modifies this
      ensures capturedRedKeys == old(capturedRedKeys) + (if piece.owner == Red then [piece.key] else [])
      ensures capturedBlueKeys == old(capturedBlueKeys) + (if piece.owner == Blue then [piece.key] else [])
      ensures grid == old(grid) && turn == old(turn) && winner == old(winner)
      ensures combatActive == old(combatActive) && combatAttacker == old(combatAttacker)
      ensures combatDefender == old(combatDefender) && combatResult == old(combatResult) && combatTimer == old(combatTimer)
    {
      if piece.owner == Red {
        capturedRedKeys := capturedRedKeys + [piece.key];
      } else {
        capturedBlueKeys := capturedBlueKeys + [piece.key];
      }
    }

    /** Reveals both pieces, shows the combat for 60 frames, and returns the survivor and the outcome. */
    method ResolveCombat(attacker: Piece, defender: Piece) returns (survivor: Option<Piece>, res: Res)
      modifies this
      ensures res == Outcome(attacker.key, defender.key) && survivor == Survivor(attacker, defender)
      ensures combatActive && combatTimer == 60 && combatResult == ResultText(attacker.key, defender.key)
      ensures combatAttacker == Some(Revealed(attacker)) && combatDefender == Some(Revealed(defender))
      ensures grid == old(grid) && turn == old(turn) && winner == old(winner)
      ensures capturedRedKeys == old(capturedRedKeys) && capturedBlueKeys == old(capturedBlueKeys)
    {
      var a, d := Revealed(attacker), Revealed(defender);
      combatActive := true;
      combatAttacker := Some(a);
      combatDefender := Some(d);
      combatTimer := 60;
      if d.key == Flag {
        combatResult := "FLAG CAPTURED!";
        return Some(a), Win;
      }
      if a.key == Spy && d.key == Marshal {
        combatResult := "SPY ASSASSINATES MARSHAL!";
        return Some(a), WinCombat;
      }
      if a.key == Miner && d.key == Bomb {
        combatResult := "MINER DEFUSES BOMB!";
        return Some(a), Defuse;
      }
      if Rank(a.key) > Rank(d.key) {
        combatResult := Name(a.key) + " WINS";
        return Some(a), WinCombat;
      } else if Rank(a.key) < Rank(d.key) {
        combatResult := Name(d.key) + " WINS";
        return Some(d), LoseCombat;
      } else {
        combatResult := "MUTUAL DESTRUCTION";
        return None, Draw;
      }
    }

    method MovePiece(start: Point, end: Point)
      requires GridOk(grid) && OnBoard(start) && OnBoard(end) && start != end && At(grid, start).Some?
      modifies this
      ensures grid == GridAfter(old(grid), start, end)
      ensures capturedRedKeys == old(capturedRedKeys) + KeysOf(Losses(old(grid), start, end), Red)
      ensures capturedBlueKeys == old(capturedBlueKeys) + KeysOf(Losses(old(grid), start, end), Blue)
      ensures turn == Other(old(turn))
      ensures winner == (if At(old(grid), end).Some? && At(old(grid), end).value.key == Flag
                         then Some(At(old(grid), start).value.owner) else old(winner))
      ensures At(old(grid), end).Some? ==>
        combatActive && combatTimer == 60 &&
        combatAttacker == Some(Mover(old(grid), start, end)) &&
        combatDefender == Some(Revealed(At(old(grid), end).value)) &&
        combatResult == ResultText(At(old(grid), start).value.key, At(old(grid), end).value.key)
      ensures At(old(grid), end).None? ==>
        combatActive == old(combatActive) && combatAttacker == old(combatAttacker) &&
        combatDefender == old(combatDefender) && combatResult == old(combatResult) && combatTimer == old(combatTimer)
    {
      var attacker := grid[start.0][start.1].value.(moved := true);
      var defender := grid[end.0][end.1];
      if defender.Some? {
        var survivor, res := ResolveCombat(attacker, defender.value);
        Settle(start, end, res);
      } else {
        grid := Put(grid, end, Some(attacker));
        grid := Put(grid, start, None);
        assert Losses(old(grid), start, end) == [];
      }
      turn := if turn == Blue then Red else Blue;
    }

    /** The board and the loss lists after a fight whose outcome is `res`. */
    method Settle(start: Point, end: Point, res: Res)
      requires GridOk(grid) && OnBoard(start) && OnBoard(end) && start != end && At(grid, start).Some? && At(grid, end).Some?
      requires res == Outcome(At(grid, start).value.key, At(grid, end).value.key)
      modifies this
      ensures grid == GridAfter(old(grid), start, end)
      ensures capturedRedKeys == old(capturedRedKeys) + KeysOf(Losses(old(grid), start, end), Red)
      ensures capturedBlueKeys == old(capturedBlueKeys) + KeysOf(Losses(old(grid), start, end), Blue)
      ensures winner == (if At(old(grid), end).value.key == Flag then Some(At(old(grid), start).value.owner) else old(winner))
      ensures turn == old(turn) && combatActive == old(combatActive) && combatAttacker == old(combatAttacker)
      ensures combatDefender == old(combatDefender) && combatResult == old(combatResult) && combatTimer == old(combatTimer)
    {
      if res == LoseCombat {
        SettleLoss(start, end);
      } else if res == Draw {
        SettleDraw(start, end);
      } else {
        SettleWin(start, end);
      }
    }

    /** The attacker takes the square; a defeated defender is recorded, a captured flag ends the game. */
    method SettleWin(start: Point, end: Point)
      requires GridOk(grid) && OnBoard(start) && OnBoard(end) && start != end && At(grid, start).Some? && At(grid, end).Some?
      requires Outcome(At(grid, start).value.key, At(grid, end).value.key) in {Win, WinCombat, Defuse}
      modifies this
      ensures grid == GridAfter(old(grid), start, end)
      ensures capturedRedKeys == old(capturedRedKeys) + KeysOf(Losses(old(grid), start, end), Red)
      ensures capturedBlueKeys == old(capturedBlueKeys) + KeysOf(Losses(old(grid), start, end), Blue)
      ensures winner == (if At(old(grid), end).value.key == Flag then Some(At(old(grid), start).value.owner) else old(winner))
      ensures turn == old(turn) && combatActive == old(combatActive) && combatAttacker == old(combatAttacker)
      ensures combatDefender == old(combatDefender) && combatResult == old(combatResult) && combatTimer == old(combatTimer)
    {
      ghost var g := grid;
      var a, d := Mover(grid, start, end), Revealed(grid[end.0][end.1].value);
      if d.key == Flag {
        assert Losses(g, start, end) == [];
        winner := Some(a.owner);
      } else {
        assert Losses(g, start, end) == [d];
        KeysOfOne(d, Red);
        KeysOfOne(d, Blue);
        RecordLoss(d);
      }
      grid := Put(grid, end, Some(a));
      grid := Put(grid, start, None);
    }

    /** The attacker is recorded as lost and the revealed defender stays. */
    method SettleLoss(start: Point, end: Point)
      requires GridOk(grid) && OnBoard(start) && OnBoard(end) && start != end && At(grid, start).Some? && At(grid, end).Some?
      requires Outcome(At(grid, start).value.key, At(grid, end).value.key) == LoseCombat
      modifies this
      ensures grid == GridAfter(old(grid), start, end)
      ensures capturedRedKeys == old(capturedRedKeys) + KeysOf(Losses(old(grid), start, end), Red)
      ensures capturedBlueKeys == old(capturedBlueKeys) + KeysOf(Losses(old(grid), start, end), Blue)
      ensures winner == old(winner)
      ensures turn == old(turn) && combatActive == old(combatActive) && combatAttacker == old(combatAttacker)
      ensures combatDefender == old(combatDefender) && combatResult == old(combatResult) && combatTimer == old(combatTimer)
    {
      ghost var g := grid;
      var a, d := Mover(grid, start, end), Revealed(grid[end.0][end.1].value);
      assert Losses(g, start, end) == [a];
      KeysOfOne(a, Red);
      KeysOfOne(a, Blue);
      RecordLoss(a);
      grid := Put(grid, end, Some(d));
      grid := Put(grid, start, None);
    }

    /** Both pieces are recorded as lost and both squares empty. */
    method SettleDraw(start: Point, end: Point)
      requires GridOk(grid) && OnBoard(start) && OnBoard(end) && start != end && At(grid, start).Some? && At(grid, end).Some?
      requires Outcome(At(grid, start).value.key, At(grid, end).value.key) == Draw
      modifies this
      ensures grid == GridAfter(old(grid), start, end)
      ensures capturedRedKeys == old(capturedRedKeys) + KeysOf(Losses(old(grid), start, end), Red)
      ensures capturedBlueKeys == old(capturedBlueKeys) + KeysOf(Losses(old(grid), start, end), Blue)
      ensures winner == old(winner)
      ensures turn == old(turn) && combatActive == old(combatActive) && combatAttacker == old(combatAttacker)
      ensures combatDefender == old(combatDefender) && combatResult == old(combatResult) && combatTimer == old(combatTimer)
    {
      ghost var g := grid;
      var a, d := Mover(grid, start, end), Revealed(grid[end.0][end.1].value);
      assert Losses(g, start, end) == [a, d];
      KeysOfPair(a, d, Red);
      KeysOfPair(a, d, Blue);
      var red, blue := capturedRedKeys, capturedBlueKeys;
      RecordLoss(a);
      RecordLoss(d);
      AppendAssoc(red, if a.owner == Red then [a.key] else [], if d.owner == Red then [d.key] else []);
      AppendAssoc(blue, if a.owner == Blue then [a.key] else [], if d.owner == Blue then [d.key] else []);
      grid := Put(grid, start, None);
      grid := Put(grid, end, None);
    }
  }

  lemma KeysOfOne(a: Piece, side: Side)
    ensures KeysOf([a], side) == if a.owner == side then [a.key] else []
  {
    assert [a][..0] == [];
  }

  lemma KeysOfPair(a: Piece, d: Piece, side: Side)
    ensures KeysOf([a, d], side) == (if a.owner == side then [a.key] else []) + (if d.owner == side then [d.key] else [])
  {
    assert [a, d][..1] == [a];
    KeysOfOne(a, side);
  }

  /** Appends each target of `s` as a move from `s`, in order. */
  method AppendPairs(moves: seq<(Point, Point)>, s: Point, valid: seq<Point>) returns (res: seq<(Point, Point)>)
    ensures res == moves + Pair(s, valid)
  {
    res := moves;
    for i := 0 to |valid|
      invariant res == moves + Pair(s, valid[..i])
    {
      assert valid[..i + 1][..i] == valid[..i];
      res := res + [(s, valid[i])];
    }
    assert valid[..|valid|] == valid;
  }

  /** The scan from (sr, sc) has found `found` so far and the rest of the ray starts at (nr, nc). */
  ghost predicate ScanSoFar(g: Grid, owner: Side, scout: bool, sr: int, sc: int, dr: int, dc: int,
                            found: seq<Point>, nr: int, nc: int)
  {
    GridOk(g) && Unit(dr, dc) &&
    found + Ray(g, owner, scout, nr, nc, dr, dc) == Ray(g, owner, scout, sr, sc, dr, dc)
  }

  /** Off the board the rest of the ray is empty: everything has been found. */
  lemma ScanEnd(g: Grid, owner: Side, scout: bool, sr: int, sc: int, dr: int, dc: int, found: seq<Point>, nr: int, nc: int)
    requires ScanSoFar(g, owner, scout, sr, sc, dr, dc, found, nr, nc) && !OnBoard((nr, nc))
    ensures found == Ray(g, owner, scout, sr, sc, dr, dc)
  {
    OffBoardRay(g, owner, scout, nr, nc, dr, dc);
  }

  /**
   * The loop body on one square: the square is added when it is a target,
   * and the scan goes on past it only for a scout over an empty square;
   * when it stops, the whole ray has been found.
   */
  method ScanSquare(g: Grid, sr: int, sc: int, dr: int, dc: int, owner: Side, scout: bool, found: seq<Point>, nr: int, nc: int)
      returns (found': seq<Point>, go: bool)
    requires ScanSoFar(g, owner, scout, sr, sc, dr, dc, found, nr, nc) && OnBoard((nr, nc))
    ensures go ==> ScanSoFar(g, owner, scout, sr, sc, dr, dc, found', nr + dr, nc + dc)
    ensures !go ==> GridOk(g) && Unit(dr, dc) && found' == Ray(g, owner, scout, sr, sc, dr, dc)
  {
    ghost var next := Ray(g, owner, scout, nr + dr, nc + dc, dr, dc);
    if IsWater(nr, nc) {
      return found, false;
    }
    var target := g[nr][nc];
    if target == None {
      AppendAssoc(found, [(nr, nc)], if scout then next else []);
      return found + [(nr, nc)], scout;
    } else if target.value.owner != owner {
      return found + [(nr, nc)], false;
    } else {
      return found, false;
    }
  }

  class AI {
    const diff: int

    constructor (diff: int)
      ensures this.diff == diff
    {
      this.diff := diff;
    }

    /**
     * None when red cannot move; at difficulty 2 or more the first red
     * move with the highest heuristic score; otherwise the move `pick`
     * stands for (the random choice).
     */
    method GetMove(board: Board, pick: nat) returns (move: Option<(Point, Point)>)
      requires GridOk(board.grid)
      ensures var ms := AiMoves(board.grid);
        (move == None <==> ms == []) &&
        (move.Some? && diff < 2 ==> move.value == ms[pick % |ms|]) &&
        (move.Some? && diff >= 2 ==> exists k :: FirstBest(board.grid, ms, k) && move.value == ms[k])
    {
      var moves := CollectMoves(board);
      if moves == [] {
        return None;
      }
      forall i | 0 <= i < |moves| ensures Considered(board.grid, moves[i]) {
        RedMovesConsidered(board.grid, moves[i]);
      }
      if diff >= 2 {
        var k := Pick(board, moves);
        return Some(moves[k]);
      }
      return Some(moves[pick % |moves|]);
    }

    /** The scan over the board's squares collecting each red piece's moves. */
    method CollectMoves(board: Board) returns (moves: seq<(Point, Point)>)
      requires GridOk(board.grid)
      ensures moves == AiMoves(board.grid)
    {
      moves := [];
      for r := 0 to Rows
        invariant moves == RedMoves(board.grid, Targets(board.grid), r)
      {
        var row := CollectRow(board, r);
        moves := moves + row;
      }
    }

    method CollectRow(board: Board, r: int) returns (moves: seq<(Point, Point)>)
      requires GridOk(board.grid) && 0 <= r < Rows
      ensures moves == RowMoves(board.grid, Targets(board.grid), r, Cols)
    {
      ghost var gen := Targets(board.grid);
      moves := [];
      for c := 0 to Cols
        invariant moves == RowMoves(board.grid, gen, r, c)
      {
        var p := board.grid[r][c];
        if p.Some? && p.value.owner == Red {
          var valid := board.GetValidMoves(r, c);
          assert valid == gen(r, c);
          moves := AppendPairs(moves, (r, c), valid);
        }
      }
    }

    /** The greedy loop: best score starts at -1000, below every score. */
    method Pick(board: Board, moves: seq<(Point, Point)>) returns (at: int)
      requires GridOk(board.grid) && moves != [] && forall i :: 0 <= i < |moves| ==> Considered(board.grid, moves[i])
      ensures FirstBest(board.grid, moves, at)
    {
      var g := board.grid;
      var bestScore := -1000;
      at := -1;
      for i := 0 to |moves|
        invariant i == 0 ==> at == -1 && bestScore == -1000
        invariant i > 0 ==> 0 <= at < i && bestScore == AiScore(g, moves[at].0, moves[at].1)
        invariant i > 0 ==> forall j :: 0 <= j < i ==> AiScore(g, moves[j].0, moves[j].1) <= bestScore
        invariant i > 0 ==> forall j :: 0 <= j < at ==> AiScore(g, moves[j].0, moves[j].1) < bestScore
      {
        var score := ScoreMove(board, moves[i].0, moves[i].1);
        if score > bestScore {
          bestScore := score;
          at := i;
        }
      }
    }

    method ScoreMove(board: Board, start: Point, end: Point) returns (score: int)
      requires GridOk(board.grid) && OnBoard(start) && OnBoard(end) && At(board.grid, start).Some?
      ensures score == AiScore(board.grid, start, end) && score > -1000
    {
      score := 0;
      var attacker := board.grid[start.0][start.1].value;
      var defender := board.grid[end.0][end.1];
      if defender.Some? {
        if defender.value.revealed {
          if Rank(attacker.key) > Rank(defender.value.key) {
            score := score + Rank(defender.value.key) * 10;
          } else if Rank(attacker.key) < Rank(defender.value.key) {
            score := score - Rank(attacker.key) * 10;
          }
        } else {
          if Rank(attacker.key) < 4 {
            score := score + 5;
          } else if Rank(attacker.key) > 8 {
            score := score - 5;
          }
        }
      } else {
        if end.0 > start.0 {
          score := score + 1;
        }
      }
    }
  }
}

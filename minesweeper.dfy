/**
 * Minesweeper on a 16x16 field with 40 mines.  A cell of the grid holds 9
 * for a mine and otherwise the number of mines around it.  The mines are
 * laid on the first click, away from it; revealing a 0 floods its
 * neighbourhood; chording opens the neighbours of a number once enough
 * flags surround it.  The random mine positions are an input.
 */
module Minesweeper {
  import opened Options

  const Rows := 16
  const Cols := 16
  const Mines := 40
  const Mine := 9

  predicate Cell(r: int, c: int) { 0 <= r < Rows && 0 <= c < Cols }

  /** A 16x16 field of values. */
  predicate Field<T>(g: seq<seq<T>>)
  {
    |g| == Rows && forall i :: 0 <= i < Rows ==> |g[i]| == Cols
  }

  function Put<T>(g: seq<seq<T>>, r: int, c: int, v: T): (h: seq<seq<T>>)
    requires Field(g) && Cell(r, c)
    ensures Field(h) && h[r][c] == v
    ensures forall i, j :: Cell(i, j) && !(i == r && j == c) ==> h[i][j] == g[i][j]
  {
    g[r := g[r][c := v]]
  }

  function Abs(x: int): int { if x < 0 then -x else x }

  /** (a, b) is one of the up to eight cells around (r, c). */
  predicate Adjacent(r: int, c: int, a: int, b: int)
  {
    Cell(a, b) && -1 <= a - r <= 1 && -1 <= b - c <= 1 && !(a == r && b == c)
  }

  // ---------------------------------------------------------------------
  // Counting mines

  /** The row of the k-th of the nine offsets of the 3x3 block, counted row by row. */
  function BlockRow(k: int): int
  {
    if k < 3 then 0 else if k < 6 then 1 else 2
  }

  /** The k-th of the nine offsets of the 3x3 block, row by row: (k / 3 - 1, k % 3 - 1). */
  function NearTerm(g: seq<seq<int>>, r: int, c: int, k: int): int
    requires Field(g)
  {
    var i := BlockRow(k);
    var a, b := r + i - 1, c + k - 3 * i - 1;
    if Cell(a, b) && g[a][b] == Mine then 1 else 0
  }

  /** Mines among the first k cells of the 3x3 block around (r, c). */
  function NearUpTo(g: seq<seq<int>>, r: int, c: int, k: nat): nat
    requires Field(g) && k <= 9
  {
    if k == 0 then 0 else NearUpTo(g, r, c, k - 1) + NearTerm(g, r, c, k - 1)
  }

  /** The mines in the 3x3 block around (r, c), as generate_mines counts them. */
  function Near(g: seq<seq<int>>, r: int, c: int): nat
    requires Field(g)
  {
    NearUpTo(g, r, c, 9)
  }

  /** A well-formed field: every cell is a mine or holds its count of adjacent mines. */
  ghost predicate Numbered(g: seq<seq<int>>)
    requires Field(g)
  {
    forall i, j :: Cell(i, j) ==> g[i][j] == Mine || g[i][j] == Near(g, i, j)
  }

  /** Two fields with mines in the same cells. */
  ghost predicate SameMines(g: seq<seq<int>>, h: seq<seq<int>>)
    requires Field(g) && Field(h)
  {
    forall i, j :: Cell(i, j) ==> (g[i][j] == Mine <==> h[i][j] == Mine)
  }

  lemma {:induction false} NearUpToSame(g: seq<seq<int>>, h: seq<seq<int>>, r: int, c: int, k: nat)
    requires Field(g) && Field(h) && SameMines(g, h) && k <= 9
    ensures NearUpTo(g, r, c, k) == NearUpTo(h, r, c, k)
  {
    if k > 0 {
      NearUpToSame(g, h, r, c, k - 1);
    }
  }

  /** One step of the 3x3 scan: offset (i - 1, j - 1) is term 3 * i + j. */
  lemma NearStep(g: seq<seq<int>>, r: int, c: int, i: int, j: int)
    requires Field(g) && 0 <= i < 3 && 0 <= j < 3
    ensures NearUpTo(g, r, c, 3 * i + j + 1) ==
      NearUpTo(g, r, c, 3 * i + j) + (if Cell(r + i - 1, c + j - 1) && g[r + i - 1][c + j - 1] == Mine then 1 else 0)
  {
    assert BlockRow(3 * i + j) == i;
  }

  /** A cell that is not a mine has at most eight mines around it, so its count never reads as a mine. */
  lemma {:induction false} NearBound(g: seq<seq<int>>, r: int, c: int, k: nat)
    requires Field(g) && Cell(r, c) && g[r][c] != Mine && k <= 9
    ensures NearUpTo(g, r, c, k) <= (if k > 4 then k - 1 else k)
  {
    if k > 0 {
      NearBound(g, r, c, k - 1);
      if k - 1 == 4 {
        assert NearTerm(g, r, c, 4) == 0;
      }
    }
  }

  /** A mine in the block makes the count positive. */
  lemma {:induction false} NearPositive(g: seq<seq<int>>, r: int, c: int, m: nat, k: nat)
    requires Field(g) && m < k <= 9 && NearTerm(g, r, c, m) == 1
    ensures NearUpTo(g, r, c, k) >= 1
  {
    if k - 1 != m {
      NearPositive(g, r, c, m, k - 1);
    }
  }

  /** No neighbour of a 0 cell is a mine. */
  lemma ZeroClear(g: seq<seq<int>>, r: int, c: int, a: int, b: int)
    requires Field(g) && Numbered(g) && Cell(r, c) && g[r][c] == 0 && Adjacent(r, c, a, b)
    ensures g[a][b] != Mine
  {
    var m := 3 * (a - r + 1) + (b - c + 1);
    assert BlockRow(m) == a - r + 1;
    if g[a][b] == Mine {
      assert NearTerm(g, r, c, m) == 1;
      NearPositive(g, r, c, m, 9);
    }
  }

  /** A mine far from (r, c) in either direction leaves the count there at 0. */
  lemma {:induction false} NearZero(g: seq<seq<int>>, r: int, c: int, k: nat)
    requires Field(g) && k <= 9
    requires forall i, j :: Cell(i, j) && g[i][j] == Mine ==> Abs(i - r) > 1 && Abs(j - c) > 1
    ensures NearUpTo(g, r, c, k) == 0
  {
    if k > 0 {
      NearZero(g, r, c, k - 1);
    }
  }

  /** Some neighbour of (r, c) holds 0. */
  ghost predicate ZeroNeighbour(g: seq<seq<int>>, r: int, c: int)
    requires Field(g)
  {
    exists a, b :: Adjacent(r, c, a, b) && g[a][b] == 0
  }

  /** A cell next to a 0 is never a mine. */
  lemma ZeroNeighbourSafe(g: seq<seq<int>>, r: int, c: int)
    requires Field(g) && Numbered(g) && Cell(r, c) && ZeroNeighbour(g, r, c)
    ensures g[r][c] != Mine
  {
    var a, b :| Adjacent(r, c, a, b) && g[a][b] == 0;
    ZeroClear(g, a, b, r, c);
  }

  /** Every neighbour of (r, c) is visible or flagged. */
  ghost predicate Opened(visible: seq<seq<bool>>, flagged: seq<seq<bool>>, r: int, c: int)
    requires Field(visible) && Field(flagged)
  {
    forall a, b :: Adjacent(r, c, a, b) ==> visible[a][b] || flagged[a][b]
  }

  /** The neighbours of (r, c) at the first k of the nine offsets are visible or flagged. */
  ghost predicate Done(visible: seq<seq<bool>>, flagged: seq<seq<bool>>, r: int, c: int, k: int)
    requires Field(visible) && Field(flagged)
  {
    forall a, b :: Adjacent(r, c, a, b) && 3 * (a - r + 1) + (b - c + 1) < k ==> visible[a][b] || flagged[a][b]
  }

  /** Visiting offset number k, which is (dr, dc), extends Done by one offset. */
  lemma DoneNext(v: seq<seq<bool>>, w: seq<seq<bool>>, flagged: seq<seq<bool>>, r: int, c: int, dr: int, dc: int, k: int)
    requires Field(v) && Field(w) && Field(flagged) && -1 <= dr <= 1 && -1 <= dc <= 1 && k == 3 * (dr + 1) + (dc + 1)
    requires Done(v, flagged, r, c, k) && Grows(v, w)
    requires Cell(r + dr, c + dc) && !(dr == 0 && dc == 0) ==> w[r + dr][c + dc] || flagged[r + dr][c + dc]
    ensures Done(w, flagged, r, c, k + 1)
  {
    forall a, b | Adjacent(r, c, a, b) && 3 * (a - r + 1) + (b - c + 1) < k + 1
      ensures w[a][b] || flagged[a][b]
    {
      if 3 * (a - r + 1) + (b - c + 1) == k {
        assert a == r + dr && b == c + dc;
      }
    }
  }

  /** Some neighbour of (r, c) holds 0 and is visible in v but not in v0. */
  ghost predicate OpenedZeroNear(g: seq<seq<int>>, v0: seq<seq<bool>>, v: seq<seq<bool>>, r: int, c: int)
    requires Field(g) && Field(v0) && Field(v)
  {
    exists a, b :: Adjacent(r, c, a, b) && g[a][b] == 0 && v[a][b] && !v0[a][b]
  }

  /** Each cell visible in v but not in v0 is unflagged and is (r, c) or next to a 0 that also became visible. */
  ghost predicate Spread(g: seq<seq<int>>, v0: seq<seq<bool>>, v: seq<seq<bool>>, flagged: seq<seq<bool>>, r: int, c: int)
    requires Field(g) && Field(v0) && Field(v) && Field(flagged)
  {
    forall a, b {:trigger flagged[a][b]} :: Cell(a, b) && v[a][b] && !v0[a][b] ==> !flagged[a][b] && ((a == r && b == c) || OpenedZeroNear(g, v0, v, a, b))
  }

  /** Each 0 other than (r, c) visible in v but not in v0 has all its neighbours visible or flagged. */
  ghost predicate ZerosOpened(g: seq<seq<int>>, v0: seq<seq<bool>>, v: seq<seq<bool>>, flagged: seq<seq<bool>>, r: int, c: int)
    requires Field(g) && Field(v0) && Field(v) && Field(flagged)
  {
    forall a, b :: Cell(a, b) && v[a][b] && !v0[a][b] && g[a][b] == 0 && !(a == r && b == c) ==> Opened(v, flagged, a, b)
  }

  /**
   * The flood invariant from (r, c) survives the fill of its neighbour at
   * offset (dr, dc), which took the field from v1 to v.
   */
  lemma SpreadAfterFill(g: seq<seq<int>>, v0: seq<seq<bool>>, v1: seq<seq<bool>>, v: seq<seq<bool>>,
                        flagged: seq<seq<bool>>, r: int, c: int, dr: int, dc: int)
    requires Field(g) && Field(v0) && Field(v1) && Field(v) && Field(flagged)
    requires Cell(r, c) && g[r][c] == 0 && -1 <= dr <= 1 && -1 <= dc <= 1 && !(dr == 0 && dc == 0)
    requires Grows(v0, v1) && Grows(v1, v) && v1[r][c] && !v0[r][c] && Spread(g, v0, v1, flagged, r, c)
    requires forall i, j :: Cell(i, j) && v[i][j] && !v1[i][j] ==>
      !flagged[i][j] && ((i == r + dr && j == c + dc) || OpenedZeroNear(g, v1, v, i, j))
    ensures Spread(g, v0, v, flagged, r, c)
  {
    forall a, b | Cell(a, b) && v[a][b] && !v0[a][b]
      ensures !flagged[a][b] && ((a == r && b == c) || OpenedZeroNear(g, v0, v, a, b))
    {
      if !v1[a][b] && a == r + dr && b == c + dc {
        assert Adjacent(a, b, r, c);
      } else if !v1[a][b] {
        var x, y :| Adjacent(a, b, x, y) && g[x][y] == 0 && v[x][y] && !v1[x][y];
        assert !v0[x][y];
      } else if !(a == r && b == c) {
        assert !flagged[a][b] && OpenedZeroNear(g, v0, v1, a, b);
        var x, y :| Adjacent(a, b, x, y) && g[x][y] == 0 && v1[x][y] && !v0[x][y];
        assert v[x][y];
      }
    }
  }

  /** Likewise for the opened 0s: each keeps all its neighbours visible or flagged. */
  lemma ZerosAfterFill(g: seq<seq<int>>, v0: seq<seq<bool>>, v1: seq<seq<bool>>, v: seq<seq<bool>>,
                       flagged: seq<seq<bool>>, r: int, c: int)
    requires Field(g) && Field(v0) && Field(v1) && Field(v) && Field(flagged)
    requires Grows(v1, v) && ZerosOpened(g, v0, v1, flagged, r, c)
    requires forall i, j :: Cell(i, j) && v[i][j] && !v1[i][j] && g[i][j] == 0 ==> Opened(v, flagged, i, j)
    ensures ZerosOpened(g, v0, v, flagged, r, c)
  {
    forall a, b | Cell(a, b) && v[a][b] && !v0[a][b] && g[a][b] == 0 && !(a == r && b == c)
      ensures Opened(v, flagged, a, b)
    {
      if v1[a][b] {
        assert Opened(v1, flagged, a, b);
        forall x, y | Adjacent(a, b, x, y) ensures v[x][y] || flagged[x][y] {
          assert v1[x][y] || flagged[x][y];
        }
      }
    }
  }

  /** Every cell visible in v is visible in w. */
  ghost predicate Grows(v: seq<seq<bool>>, w: seq<seq<bool>>)
    requires Field(v) && Field(w)
  {
    forall i, j :: Cell(i, j) && v[i][j] ==> w[i][j]
  }

  /** The hidden cells: flood fill's termination measure. */
  ghost function Hidden(v: seq<seq<bool>>): set<(int, int)>
    requires Field(v)
  {
    set i, j | 0 <= i < Rows && 0 <= j < Cols && !v[i][j] :: (i, j)
  }

  /** Every non-mine cell is visible: the winning condition. */
  ghost predicate Cleared(g: seq<seq<int>>, v: seq<seq<bool>>)
    requires Field(g) && Field(v)
  {
    forall i, j :: Cell(i, j) && g[i][j] != Mine ==> v[i][j]
  }

  /** The visible cells once every mine is shown. */
  function ShowMines(g: seq<seq<int>>, v: seq<seq<bool>>): (w: seq<seq<bool>>)
    requires Field(g) && Field(v)
    ensures Field(w)
    ensures forall i, j :: Cell(i, j) ==> w[i][j] == (v[i][j] || g[i][j] == Mine)
  {
    seq(Rows, i requires 0 <= i < Rows => seq(Cols, j requires 0 <= j < Cols => v[i][j] || g[i][j] == Mine))
  }

  /** The cells of a field holding a mine. */
  ghost function MineSet(g: seq<seq<int>>): set<(int, int)>
    requires Field(g)
  {
    set i, j | 0 <= i < Rows && 0 <= j < Cols && g[i][j] == Mine :: (i, j)
  }

  lemma MineSetIs(g: seq<seq<int>>, laid: set<(int, int)>)
    requires Field(g) && forall p :: p in laid ==> Cell(p.0, p.1)
    requires forall i, j :: Cell(i, j) ==> (g[i][j] == Mine <==> (i, j) in laid)
    ensures MineSet(g) == laid
  {
    forall p | p in laid ensures p in MineSet(g) {
      assert g[p.0][p.1] == Mine;
    }
  }

  /** The mines of g are the cells of laid, all eligible, and every other cell is 0. */
  ghost predicate Laid(g: seq<seq<int>>, laid: set<(int, int)>, safeR: int, safeC: int)
    requires Field(g)
  {
    (forall i, j :: Cell(i, j) ==> (g[i][j] == Mine <==> (i, j) in laid)) &&
    (forall i, j :: Cell(i, j) ==> g[i][j] == 0 || g[i][j] == Mine) &&
    (forall p :: p in laid ==> Eligible(p, safeR, safeC) && Cell(p.0, p.1))
  }

  lemma LaidStep(g: seq<seq<int>>, laid: set<(int, int)>, safeR: int, safeC: int, r: int, c: int)
    requires Field(g) && Laid(g, laid, safeR, safeC) && Cell(r, c) && g[r][c] != Mine && Eligible((r, c), safeR, safeC)
    ensures Laid(Put(g, r, c, Mine), laid + {(r, c)}, safeR, safeC) && (r, c) !in laid
  {
  }

  /** generate_mines accepts a drawn cell only two rows and two columns away from the first click. */
  predicate Eligible(p: (int, int), safeR: int, safeC: int)
  {
    Abs(p.0 - safeR) > 1 && Abs(p.1 - safeC) > 1
  }

  predicate OnField(cells: seq<(int, int)>)
  {
    forall k :: 0 <= k < |cells| ==> Cell(cells[k].0, cells[k].1)
  }

  // ---------------------------------------------------------------------
  // The neighbour list of chord

  /** The cell at offset (i - 1, j - 1) of (r, c), if chord's scan lists it: in range and not (r, c) itself. */
  function ScanCell(r: int, c: int, i: int, j: int): seq<(int, int)>
  {
    if !(i == 1 && j == 1) && Cell(r + i - 1, c + j - 1) then [(r + i - 1, c + j - 1)] else []
  }

  /** The cells chord's scan has listed before offset (i - 1, j - 1), in the order it lists them. */
  function Scan(r: int, c: int, i: nat, j: nat): (ns: seq<(int, int)>)
    requires i <= 3 && j <= 3
    decreases i, j
  {
    if j == 0 then (if i == 0 then [] else Scan(r, c, i - 1, 3))
    else Scan(r, c, i, j - 1) + ScanCell(r, c, i, j - 1)
  }

  /** The cells around (r, c) in the order chord lists them. */
  function Neighbours(r: int, c: int): (ns: seq<(int, int)>)
    ensures OnField(ns)
  {
    ScanAround(r, c);
    Scan(r, c, 3, 0)
  }

  /** The full scan lists exactly the cells around (r, c). */
  lemma ScanAround(r: int, c: int)
    ensures forall p :: p in Scan(r, c, 3, 0) <==> Adjacent(r, c, p.0, p.1)
    ensures OnField(Scan(r, c, 3, 0))
  {
    forall p ensures p in Scan(r, c, 3, 0) <==> Adjacent(r, c, p.0, p.1) {
      ScanIs(r, c, 3, 0, p);
    }
    var ns := Scan(r, c, 3, 0);
    forall k | 0 <= k < |ns| ensures Cell(ns[k].0, ns[k].1) {
      assert ns[k] in ns;
    }
  }

  lemma {:induction false} ScanIs(r: int, c: int, i: nat, j: nat, p: (int, int))
    requires (i < 3 && j <= 3) || (i == 3 && j == 0)
    ensures p in Scan(r, c, i, j) <==> Adjacent(r, c, p.0, p.1) && (p.0 - r + 1 < i || (p.0 - r + 1 == i && p.1 - c + 1 < j))
    decreases i, j
  {
    if j == 0 {
      if i > 0 { ScanIs(r, c, i - 1, 3, p); }
    } else {
      ScanIs(r, c, i, j - 1, p);
      assert Scan(r, c, i, j) == Scan(r, c, i, j - 1) + ScanCell(r, c, i, j - 1);
      var a, b := p.0 - r + 1, p.1 - c + 1;
      if p in ScanCell(r, c, i, j - 1) {
        assert a == i && b == j - 1;
      }
    }
  }

  /** The flags at the cells chord's scan has listed before offset (i - 1, j - 1). */
  function FlagsUpTo(flagged: seq<seq<bool>>, r: int, c: int, i: nat, j: nat): nat
    requires Field(flagged) && i <= 3 && j <= 3
    decreases i, j
  {
    if j == 0 then (if i == 0 then 0 else FlagsUpTo(flagged, r, c, i - 1, 3))
    else FlagsUpTo(flagged, r, c, i, j - 1) + (if ScanCell(r, c, i, j - 1) != [] && flagged[r + i - 1][c + j - 2] then 1 else 0)
  }

  /** One offset of chord's scan: the list and the flag count grow together. */
  lemma ScanStep(flagged: seq<seq<bool>>, r: int, c: int, i: nat, j: nat)
    requires Field(flagged) && i < 3 && j < 3
    ensures Scan(r, c, i, j + 1) == Scan(r, c, i, j) + ScanCell(r, c, i, j)
    ensures FlagsUpTo(flagged, r, c, i, j + 1) ==
      FlagsUpTo(flagged, r, c, i, j) + (if ScanCell(r, c, i, j) != [] && flagged[r + i - 1][c + j - 1] then 1 else 0)
    ensures Scan(r, c, i + 1, 0) == Scan(r, c, i, 3) && FlagsUpTo(flagged, r, c, i + 1, 0) == FlagsUpTo(flagged, r, c, i, 3)
  {
  }

  /** The flags around (r, c). */
  function Flags(flagged: seq<seq<bool>>, r: int, c: int): nat
    requires Field(flagged)
  {
    FlagsUpTo(flagged, r, c, 3, 0)
  }

  /** Every flag around (r, c) sits on a mine. */
  ghost predicate FlagsRight(g: seq<seq<int>>, flagged: seq<seq<bool>>, r: int, c: int)
    requires Field(g) && Field(flagged)
  {
    forall a, b :: Adjacent(r, c, a, b) && flagged[a][b] ==> g[a][b] == Mine
  }

  /** The mines at the offsets of the 3x3 block before (i - 1, j - 1), in chord's scan order. */
  function MinesUpTo(g: seq<seq<int>>, r: int, c: int, i: nat, j: nat): nat
    requires Field(g) && i <= 3 && j <= 3
    decreases i, j
  {
    if j == 0 then (if i == 0 then 0 else MinesUpTo(g, r, c, i - 1, 3))
    else MinesUpTo(g, r, c, i, j - 1) + (if Cell(r + i - 1, c + j - 2) && g[r + i - 1][c + j - 2] == Mine then 1 else 0)
  }

  lemma MinesStep(g: seq<seq<int>>, r: int, c: int, i: nat, j: nat)
    requires Field(g) && i < 3 && j < 3
    ensures MinesUpTo(g, r, c, i, j + 1) - MinesUpTo(g, r, c, i, j) == NearUpTo(g, r, c, 3 * i + j + 1) - NearUpTo(g, r, c, 3 * i + j)
  {
    NearStep(g, r, c, i, j);
  }

  lemma MinesRow(g: seq<seq<int>>, r: int, c: int, i: nat)
    requires Field(g) && i < 3
    ensures MinesUpTo(g, r, c, i + 1, 0) - MinesUpTo(g, r, c, i, 0) == NearUpTo(g, r, c, 3 * i + 3) - NearUpTo(g, r, c, 3 * i)
  {
    MinesStep(g, r, c, i, 0);
    MinesStep(g, r, c, i, 1);
    MinesStep(g, r, c, i, 2);
    assert MinesUpTo(g, r, c, i + 1, 0) == MinesUpTo(g, r, c, i, 3);
    assert 3 * i + 2 + 1 == 3 * i + 3;
  }

  /** Counting the block in chord's scan order gives the count of generate_mines. */
  lemma MinesIsNear(g: seq<seq<int>>, r: int, c: int)
    requires Field(g)
    ensures MinesUpTo(g, r, c, 3, 0) == Near(g, r, c)
  {
    MinesRow(g, r, c, 0);
    MinesRow(g, r, c, 1);
    MinesRow(g, r, c, 2);
  }

  /** One offset of the scan: a flag met there is a mine met there. */
  lemma FlagMineStep(g: seq<seq<int>>, flagged: seq<seq<bool>>, r: int, c: int, i: nat, j: nat)
    requires Field(g) && Field(flagged) && FlagsRight(g, flagged, r, c) && i < 3 && j < 3
    ensures FlagsUpTo(flagged, r, c, i, j + 1) - FlagsUpTo(flagged, r, c, i, j) <= MinesUpTo(g, r, c, i, j + 1) - MinesUpTo(g, r, c, i, j)
  {
    if ScanCell(r, c, i, j) != [] && flagged[r + i - 1][c + j - 1] {
      assert Adjacent(r, c, r + i - 1, c + j - 1);
    }
  }

  /** One offset of the scan holding an unflagged mine: counted as a mine, not as a flag. */
  lemma MissedStep(g: seq<seq<int>>, flagged: seq<seq<bool>>, r: int, c: int, i: nat, j: nat)
    requires Field(g) && Field(flagged) && i < 3 && j < 3
    requires Adjacent(r, c, r + i - 1, c + j - 1) && !flagged[r + i - 1][c + j - 1] && g[r + i - 1][c + j - 1] == Mine
    ensures FlagsUpTo(flagged, r, c, i, j + 1) == FlagsUpTo(flagged, r, c, i, j)
    ensures MinesUpTo(g, r, c, i, j + 1) == MinesUpTo(g, r, c, i, j) + 1
  {
  }

  lemma RowEnd(g: seq<seq<int>>, flagged: seq<seq<bool>>, r: int, c: int, i: nat)
    requires Field(g) && Field(flagged) && 0 < i <= 3
    ensures FlagsUpTo(flagged, r, c, i, 0) == FlagsUpTo(flagged, r, c, i - 1, 3)
    ensures MinesUpTo(g, r, c, i, 0) == MinesUpTo(g, r, c, i - 1, 3)
  {
  }

  /** With every flag on a mine, the flags the scan has met never outnumber the mines it has met. */
  lemma {:induction false} FlagsBelowMines(g: seq<seq<int>>, flagged: seq<seq<bool>>, r: int, c: int, i: nat, j: nat)
    requires Field(g) && Field(flagged) && FlagsRight(g, flagged, r, c)
    requires (i < 3 && j <= 3) || (i == 3 && j == 0)
    ensures FlagsUpTo(flagged, r, c, i, j) <= MinesUpTo(g, r, c, i, j)
    decreases i, j, 1
  {
    if j == 0 {
      FlagsBelowRow(g, flagged, r, c, i);
    } else {
      FlagsBelowMines(g, flagged, r, c, i, j - 1);
      FlagMineStep(g, flagged, r, c, i, j - 1);
    }
  }

  lemma {:induction false} FlagsBelowRow(g: seq<seq<int>>, flagged: seq<seq<bool>>, r: int, c: int, i: nat)
    requires Field(g) && Field(flagged) && FlagsRight(g, flagged, r, c) && i <= 3
    ensures FlagsUpTo(flagged, r, c, i, 0) <= MinesUpTo(g, r, c, i, 0)
    decreases i, 0, 0
  {
    if i > 0 {
      FlagsBelowMines(g, flagged, r, c, i - 1, 3);
      RowEnd(g, flagged, r, c, i);
    }
  }

  /** An unflagged mine the scan has met puts the flags strictly below the mines. */
  lemma {:induction false} MissedMine(g: seq<seq<int>>, flagged: seq<seq<bool>>, r: int, c: int, i: nat, j: nat, a: int, b: int)
    requires Field(g) && Field(flagged) && FlagsRight(g, flagged, r, c)
    requires (i < 3 && j <= 3) || (i == 3 && j == 0)
    requires Adjacent(r, c, a, b) && !flagged[a][b] && g[a][b] == Mine
    requires a - r + 1 < i || (a - r + 1 == i && b - c + 1 < j)
    ensures FlagsUpTo(flagged, r, c, i, j) < MinesUpTo(g, r, c, i, j)
    decreases i, j, 1
  {
    if j == 0 {
      MissedRow(g, flagged, r, c, i, a, b);
    } else if a == r + i - 1 && b == c + j - 2 {
      FlagsBelowMines(g, flagged, r, c, i, j - 1);
      MissedStep(g, flagged, r, c, i, j - 1);
    } else {
      MissedMine(g, flagged, r, c, i, j - 1, a, b);
      FlagMineStep(g, flagged, r, c, i, j - 1);
    }
  }

  lemma {:induction false} MissedRow(g: seq<seq<int>>, flagged: seq<seq<bool>>, r: int, c: int, i: nat, a: int, b: int)
    requires Field(g) && Field(flagged) && FlagsRight(g, flagged, r, c) && i <= 3
    requires Adjacent(r, c, a, b) && !flagged[a][b] && g[a][b] == Mine && a - r + 1 < i
    ensures FlagsUpTo(flagged, r, c, i, 0) < MinesUpTo(g, r, c, i, 0)
    decreases i, 0, 0
  {
    MissedMine(g, flagged, r, c, i - 1, 3, a, b);
    RowEnd(g, flagged, r, c, i);
  }

  /**
   * Chording is safe when the flags are right: if every flag around a
   * numbered cell sits on a mine and the flags match its number, no
   * unflagged neighbour is a mine.
   */
  lemma ChordSafe(g: seq<seq<int>>, flagged: seq<seq<bool>>, r: int, c: int)
    requires Field(g) && Field(flagged) && Numbered(g) && Cell(r, c) && g[r][c] != Mine
    requires FlagsRight(g, flagged, r, c) && Flags(flagged, r, c) == g[r][c]
    ensures forall a, b :: Adjacent(r, c, a, b) && !flagged[a][b] ==> g[a][b] != Mine
  {
    forall a, b | Adjacent(r, c, a, b) && !flagged[a][b] ensures g[a][b] != Mine {
      if g[a][b] == Mine {
        MissedMine(g, flagged, r, c, 3, 0, a, b);
        MinesIsNear(g, r, c);
      }
    }
  }

  /** The cells of a list that are neither visible nor flagged, in order. */
  function Closed(visible: seq<seq<bool>>, flagged: seq<seq<bool>>, ns: seq<(int, int)>): (hs: seq<(int, int)>)
    requires Field(visible) && Field(flagged) && OnField(ns)
  {
    if ns == [] then []
    else
      var p := ns[|ns| - 1];
      Closed(visible, flagged, ns[..|ns| - 1]) + (if !visible[p.0][p.1] && !flagged[p.0][p.1] then [p] else [])
  }

  /** chord highlights exactly the listed cells that are neither visible nor flagged. */
  lemma {:induction false} ClosedIs(visible: seq<seq<bool>>, flagged: seq<seq<bool>>, ns: seq<(int, int)>, p: (int, int))
    requires Field(visible) && Field(flagged) && OnField(ns)
    ensures p in Closed(visible, flagged, ns) <==> p in ns && !visible[p.0][p.1] && !flagged[p.0][p.1]
  {
    if ns != [] {
      var init := ns[..|ns| - 1];
      ClosedIs(visible, flagged, init, p);
      assert ns == init + [ns[|ns| - 1]];
    }
  }

  function Flip(f: seq<seq<bool>>, r: int, c: int): (h: seq<seq<bool>>)
    requires Field(f) && Cell(r, c)
    ensures Field(h)
  {
    Put(f, r, c, !f[r][c])
  }

  /** Flipping a flag twice restores the flags. */
  lemma FlipTwice(f: seq<seq<bool>>, r: int, c: int)
    requires Field(f) && Cell(r, c)
    ensures Flip(Flip(f, r, c), r, c) == f
  {
    var h := Flip(Flip(f, r, c), r, c);
    forall i | 0 <= i < Rows ensures h[i] == f[i] {
      if i == r {
        assert h[i][c] == f[i][c];
      }
    }
  }

  /** toggle_flag: the flag of a hidden cell flips while the game runs. */
  function Toggled(flagged: seq<seq<bool>>, visible: seq<seq<bool>>, over: bool, r: int, c: int): (f: seq<seq<bool>>)
    requires Field(flagged) && Field(visible) && Cell(r, c)
    ensures Field(f)
  {
    if !visible[r][c] && !over then Flip(flagged, r, c) else flagged
  }

  /** Toggling a flag twice restores every flag, and a visible cell is never flagged by it. */
  lemma ToggleTwice(flagged: seq<seq<bool>>, visible: seq<seq<bool>>, over: bool, r: int, c: int)
    requires Field(flagged) && Field(visible) && Cell(r, c)
    ensures Toggled(Toggled(flagged, visible, over, r, c), visible, over, r, c) == flagged
    ensures forall i, j :: Cell(i, j) && visible[i][j] ==> Toggled(flagged, visible, over, r, c)[i][j] == flagged[i][j]
  {
    FlipTwice(flagged, r, c);
  }

  lemma FieldEq<T>(g: seq<seq<T>>, h: seq<seq<T>>)
    requires Field(g) && Field(h) && forall i, j :: Cell(i, j) ==> g[i][j] == h[i][j]
    ensures g == h
  {
    forall i | 0 <= i < Rows ensures g[i] == h[i] {
      assert forall j :: 0 <= j < Cols ==> g[i][j] == h[i][j] by {
        forall j | 0 <= j < Cols ensures g[i][j] == h[i][j] { assert Cell(i, j); }
      }
    }
  }

  lemma ClosedAppend(visible: seq<seq<bool>>, flagged: seq<seq<bool>>, ns: seq<(int, int)>, k: int)
    requires Field(visible) && Field(flagged) && OnField(ns) && 0 <= k < |ns|
    ensures Closed(visible, flagged, ns[..k + 1]) ==
      Closed(visible, flagged, ns[..k]) + (if !visible[ns[k].0][ns[k].1] && !flagged[ns[k].0][ns[k].1] then [ns[k]] else [])
  {
    assert ns[..k + 1][..k] == ns[..k];
  }

  class Game {
    var grid: seq<seq<int>>
    var visible: seq<seq<bool>>
    var flagged: seq<seq<bool>>
    var gameOver: bool
    var won: bool
    var firstClick: bool
    /** The hidden neighbours chord lists when the flags do not match the number. */
    var highlight: Option<seq<(int, int)>>

    ghost predicate Valid()
      reads this
    {
      Field(grid) && Field(visible) && Field(flagged) && Numbered(grid) &&
      (forall i, j :: Cell(i, j) ==> 0 <= grid[i][j] <= Mine) &&
      (firstClick ==> forall i, j :: Cell(i, j) ==> grid[i][j] == 0 && !visible[i][j]) &&
      (!gameOver ==> forall i, j :: Cell(i, j) && visible[i][j] ==> grid[i][j] != Mine) &&
      (won ==> gameOver)
    }

    /** A new game: no mines yet, nothing visible, nothing flagged. */
    constructor ()
      ensures Valid() && firstClick && !gameOver && !won && highlight == None
      ensures forall i, j :: Cell(i, j) ==> !flagged[i][j]
    {
      grid := seq(Rows, _ => seq(Cols, _ => 0));
      visible := seq(Rows, _ => seq(Cols, _ => false));
      flagged := seq(Rows, _ => seq(Cols, _ => false));
      gameOver := false;
      won := false;
      firstClick := true;
      highlight := None;
      new;
      forall i, j | Cell(i, j) ensures grid[i][j] == Near(grid, i, j) {
        NearZero(grid, i, j, 9);
      }
    }

    /**
     * generate_mines: lay mines on the drawn cells that are two rows and
     * two columns away from the first click until 40 are laid, then number
     * every other cell.  The random draws are the input `draws`.
     */
    method GenerateMines(safeR: int, safeC: int, draws: seq<(int, int)>)
      requires Field(grid) && (forall i, j :: Cell(i, j) ==> grid[i][j] == 0) && OnField(draws)
      modifies this
      ensures Field(grid) && Numbered(grid)
      ensures forall i, j :: Cell(i, j) ==> 0 <= grid[i][j] <= Mine
      ensures forall i, j :: Cell(i, j) && grid[i][j] == Mine ==> Eligible((i, j), safeR, safeC)
      ensures |MineSet(grid)| <= Mines
      ensures |MineSet(grid)| < Mines ==>
        forall k :: 0 <= k < |draws| && Eligible(draws[k], safeR, safeC) ==> draws[k] in MineSet(grid)
      ensures visible == old(visible) && flagged == old(flagged) && gameOver == old(gameOver)
      ensures won == old(won) && firstClick == old(firstClick) && highlight == old(highlight)
    {
      PlaceMines(safeR, safeC, draws);
      ghost var laid := grid;
      NumberCells();
      assert MineSet(grid) == MineSet(laid) by {
        forall p | p in MineSet(laid) ensures p in MineSet(grid) { }
        forall p | p in MineSet(grid) ensures p in MineSet(laid) { }
      }
    }

    /** The drawing loop of generate_mines. */
    method PlaceMines(safeR: int, safeC: int, draws: seq<(int, int)>)
      requires Field(grid) && (forall i, j :: Cell(i, j) ==> grid[i][j] == 0) && OnField(draws)
      modifies this`grid
      ensures Field(grid) && forall i, j :: Cell(i, j) ==> grid[i][j] == 0 || grid[i][j] == Mine
      ensures forall i, j :: Cell(i, j) && grid[i][j] == Mine ==> Eligible((i, j), safeR, safeC)
      ensures |MineSet(grid)| <= Mines
      ensures |MineSet(grid)| < Mines ==>
        forall k :: 0 <= k < |draws| && Eligible(draws[k], safeR, safeC) ==> draws[k] in MineSet(grid)
    {
      var count := 0;
      var k := 0;
      ghost var laid: set<(int, int)> := {};
      while count < Mines && k < |draws|
        invariant 0 <= k <= |draws| && Field(grid) && count == |laid| <= Mines
        invariant Laid(grid, laid, safeR, safeC)
        invariant forall n :: 0 <= n < k && Eligible(draws[n], safeR, safeC) ==> draws[n] in laid
      {
        var (r, c) := draws[k];
        if grid[r][c] != Mine && Abs(r - safeR) > 1 && Abs(c - safeC) > 1 {
          LaidStep(grid, laid, safeR, safeC, r, c);
          grid := Put(grid, r, c, Mine);
          laid := laid + {(r, c)};
          count := count + 1;
        }
        k := k + 1;
      }
      MineSetIs(grid, laid);
    }

    /** The numbering loop of generate_mines: every cell that is not a mine gets its count. */
    method NumberCells()
      requires Field(grid) && forall i, j :: Cell(i, j) ==> 0 <= grid[i][j] <= Mine
      modifies this`grid
      ensures Field(grid) && SameMines(grid, old(grid)) && Numbered(grid)
      ensures forall i, j :: Cell(i, j) ==> 0 <= grid[i][j] <= Mine
    {
      ghost var laid := grid;
      for r := 0 to Rows
        invariant Field(grid) && SameMines(grid, laid)
        invariant forall i, j :: Cell(i, j) ==> 0 <= grid[i][j] <= Mine
        invariant forall i, j :: Cell(i, j) && i < r && grid[i][j] != Mine ==> grid[i][j] == Near(laid, i, j)
      {
        for c := 0 to Cols
          invariant Field(grid) && SameMines(grid, laid)
          invariant forall i, j :: Cell(i, j) ==> 0 <= grid[i][j] <= Mine
          invariant forall i, j :: Cell(i, j) && (i < r || (i == r && j < c)) && grid[i][j] != Mine ==>
            grid[i][j] == Near(laid, i, j)
        {
          if grid[r][c] != Mine {
            var n := CountNear(r, c);
            NearUpToSame(grid, laid, r, c, 9);
            NearBound(laid, r, c, 9);
            grid := Put(grid, r, c, n);
          }
        }
      }
      forall i, j | Cell(i, j) ensures grid[i][j] == Mine || grid[i][j] == Near(grid, i, j) {
        NearUpToSame(grid, laid, i, j, 9);
      }
    }

    /** The 3x3 scan of generate_mines around (r, c). */
    method CountNear(r: int, c: int) returns (n: nat)
      requires Field(grid)
      ensures n == Near(grid, r, c)
    {
      n := 0;
      for i := 0 to 3
        invariant n == NearUpTo(grid, r, c, 3 * i)
      {
        for j := 0 to 3
          invariant n == NearUpTo(grid, r, c, 3 * i + j)
        {
          var dr, dc := i - 1, j - 1;
          NearStep(grid, r, c, i, j);
          if 0 <= r + dr < Rows && 0 <= c + dc < Cols {
            if grid[r + dr][c + dc] == Mine { n := n + 1; }
          }
        }
      }
    }

    /**
     * flood_fill: reveal (r, c) unless it is off the field, visible or
     * flagged, and from a 0 go on to all eight neighbours.  Only visibility
     * changes; a newly visible cell is unflagged and is (r, c) or next to a
     * 0 that also became visible; every newly visible 0 has all its
     * neighbours visible or flagged.
     */
    method FloodFill(r: int, c: int)
      requires Field(grid) && Field(visible) && Field(flagged)
      modifies this`visible
      ensures Field(visible) && Grows(old(visible), visible)
      ensures Cell(r, c) && !flagged[r][c] ==> visible[r][c]
      ensures forall i, j :: Cell(i, j) && visible[i][j] && !old(visible[i][j]) ==>
        !flagged[i][j] && ((i == r && j == c) || OpenedZeroNear(grid, old(visible), visible, i, j))
      ensures forall i, j :: Cell(i, j) && visible[i][j] && !old(visible[i][j]) && grid[i][j] == 0 ==>
        Opened(visible, flagged, i, j)
      decreases Hidden(visible), 3
    {
      if !(0 <= r < Rows && 0 <= c < Cols) { return; }
      if visible[r][c] || flagged[r][c] { return; }
      ghost var v0 := visible;
      visible := Put(visible, r, c, true);
      assert Hidden(visible) < Hidden(v0) by {
        assert (r, c) in Hidden(v0);
      }
      if grid[r][c] == 0 {
        FillAround(r, c, v0);
      }
    }

    /**
     * The two offset loops of flood_fill from the newly opened 0 at (r, c),
     * run as one loop over the nine offsets in the same order: afterwards
     * every neighbour is visible or flagged, and the flood invariant holds.
     */
    method FillAround(r: int, c: int, ghost v0: seq<seq<bool>>)
      requires Field(grid) && Field(visible) && Field(flagged) && Field(v0)
      requires Cell(r, c) && grid[r][c] == 0
      requires Grows(v0, visible) && visible[r][c] && !v0[r][c] && Hidden(visible) < Hidden(v0)
      requires Spread(grid, v0, visible, flagged, r, c)
      requires ZerosOpened(grid, v0, visible, flagged, r, c)
      modifies this`visible
      ensures Field(visible) && Grows(old(visible), visible) && Grows(v0, visible)
      ensures Spread(grid, v0, visible, flagged, r, c)
      ensures ZerosOpened(grid, v0, visible, flagged, r, c)
      ensures Opened(visible, flagged, r, c)
      decreases Hidden(v0), 2
    {
      for k := 0 to 9
        invariant Field(visible) && Grows(old(visible), visible) && Grows(v0, visible) && visible[r][c]
        invariant Hidden(visible) < Hidden(v0)
        invariant Done(visible, flagged, r, c, k)
        invariant Spread(grid, v0, visible, flagged, r, c)
        invariant ZerosOpened(grid, v0, visible, flagged, r, c)
      {
        FillOffset(r, c, k, v0);
      }
      forall a, b | Adjacent(r, c, a, b) ensures visible[a][b] || flagged[a][b] {
        assert 3 * (a - r + 1) + (b - c + 1) < 9;
      }
    }

    /** Offset number k of the loop over the nine offsets: the neighbour it names is filled unless it is (r, c) itself. */
    method FillOffset(r: int, c: int, k: int, ghost v0: seq<seq<bool>>)
      requires Field(grid) && Field(visible) && Field(flagged) && Field(v0)
      requires Cell(r, c) && grid[r][c] == 0 && 0 <= k < 9
      requires Grows(v0, visible) && visible[r][c] && !v0[r][c] && Hidden(visible) < Hidden(v0)
      requires Done(visible, flagged, r, c, k)
      requires Spread(grid, v0, visible, flagged, r, c)
      requires ZerosOpened(grid, v0, visible, flagged, r, c)
      modifies this`visible
      ensures Field(visible) && Grows(old(visible), visible) && Grows(v0, visible) && visible[r][c]
      ensures Hidden(visible) < Hidden(v0)
      ensures Done(visible, flagged, r, c, k + 1)
      ensures Spread(grid, v0, visible, flagged, r, c)
      ensures ZerosOpened(grid, v0, visible, flagged, r, c)
      decreases Hidden(v0), 1
    {
      var dr, dc := k / 3 - 1, k % 3 - 1;
      if k != 4 {
        FillNeighbour(r, c, dr, dc, v0);
      }
      DoneNext(old(visible), visible, flagged, r, c, dr, dc, k);
    }

    /** One recursive call of flood_fill, from the 0 cell (r, c) to its neighbour at offset (dr, dc). */
    method FillNeighbour(r: int, c: int, dr: int, dc: int, ghost v0: seq<seq<bool>>)
      requires Field(grid) && Field(visible) && Field(flagged) && Field(v0)
      requires Cell(r, c) && grid[r][c] == 0 && -1 <= dr <= 1 && -1 <= dc <= 1 && !(dr == 0 && dc == 0)
      requires Grows(v0, visible) && visible[r][c] && !v0[r][c] && Hidden(visible) < Hidden(v0)
      requires Spread(grid, v0, visible, flagged, r, c)
      requires ZerosOpened(grid, v0, visible, flagged, r, c)
      modifies this`visible
      ensures Field(visible) && Grows(old(visible), visible) && Grows(v0, visible) && Hidden(visible) < Hidden(v0)
      ensures Cell(r + dr, c + dc) ==> visible[r + dr][c + dc] || flagged[r + dr][c + dc]
      ensures Spread(grid, v0, visible, flagged, r, c)
      ensures ZerosOpened(grid, v0, visible, flagged, r, c)
      decreases Hidden(v0), 0
    {
      ghost var v1 := visible;
      FloodFill(r + dr, c + dc);
      assert Hidden(visible) <= Hidden(v1) by {
        forall p | p in Hidden(visible) ensures p in Hidden(v1) { }
      }
      SpreadAfterFill(grid, v0, v1, visible, flagged, r, c, dr, dc);
      ZerosAfterFill(grid, v0, v1, visible, flagged, r, c);
    }

    /** The loss branch of reveal: every mine becomes visible. */
    method RevealMines()
      requires Field(grid) && Field(visible)
      modifies this`visible
      ensures visible == ShowMines(grid, old(visible))
    {
      ghost var v0 := visible;
      for nr := 0 to Rows
        invariant Field(visible)
        invariant forall i, j :: Cell(i, j) ==> visible[i][j] == (v0[i][j] || (i < nr && grid[i][j] == Mine))
      {
        for nc := 0 to Cols
          invariant Field(visible)
          invariant forall i, j :: Cell(i, j) ==>
            visible[i][j] == (v0[i][j] || ((i < nr || (i == nr && j < nc)) && grid[i][j] == Mine))
        {
          if grid[nr][nc] == Mine { visible := Put(visible, nr, nc, true); }
        }
      }
      FieldEq(visible, ShowMines(grid, v0));
    }

    /** check_win: the game is won once every cell that is not a mine is visible. */
    method CheckWin()
      requires Field(grid) && Field(visible)
      modifies this`gameOver, this`won
      ensures Cleared(grid, visible) ==> gameOver && won
      ensures !Cleared(grid, visible) ==> gameOver == old(gameOver) && won == old(won)
    {
      for r := 0 to Rows
        invariant forall i, j :: Cell(i, j) && i < r && grid[i][j] != Mine ==> visible[i][j]
      {
        for c := 0 to Cols
          invariant forall i, j :: Cell(i, j) && (i < r || (i == r && j < c)) && grid[i][j] != Mine ==> visible[i][j]
        {
          if grid[r][c] != Mine && !visible[r][c] {
            return;
          }
        }
      }
      gameOver := true;
      won := true;
    }

    /**
     * reveal: nothing happens once the game is over or on a flag.  The
     * first click lays the mines (the draws) away from it, so it lands on
     * a 0.  A mine ends the game lost and shows every mine; any other cell
     * floods open and the game is won once every other cell is visible.
     */
    method Reveal(r: int, c: int, draws: seq<(int, int)>)
      requires Valid() && Cell(r, c) && OnField(draws)
      modifies this
      ensures Valid()
      ensures flagged == old(flagged) && highlight == old(highlight)
      ensures Grows(old(visible), visible) && (old(gameOver) ==> gameOver)
      ensures old(gameOver) || old(flagged[r][c]) ==>
        grid == old(grid) && visible == old(visible) && gameOver == old(gameOver) && won == old(won) && firstClick == old(firstClick)
      ensures !old(firstClick) ==> grid == old(grid)
      ensures !old(gameOver) && !old(flagged[r][c]) ==>
        !firstClick && (old(firstClick) ==> grid[r][c] == 0) &&
        (grid[r][c] == Mine ==> gameOver && !won && visible == ShowMines(grid, old(visible))) &&
        (grid[r][c] != Mine ==> visible[r][c] && gameOver == Cleared(grid, visible) && won == gameOver)
    {
      if gameOver || flagged[r][c] { return; }
      if firstClick {
        GenerateMines(r, c, draws);
        firstClick := false;
        NearZero(grid, r, c, 9);
      }
      if grid[r][c] == Mine {
        gameOver := true;
        won := false;
        RevealMines();
      } else {
        ghost var v0 := visible;
        FloodFill(r, c);
        forall i, j | Cell(i, j) && visible[i][j] ensures grid[i][j] != Mine {
          if !v0[i][j] && !(i == r && j == c) {
            var a, b :| Adjacent(i, j, a, b) && grid[a][b] == 0 && visible[a][b] && !v0[a][b];
            ZeroNeighbourSafe(grid, i, j);
          }
        }
        CheckWin();
      }
    }

    /** toggle_flag: flip the flag of a hidden cell while the game runs. */
    method ToggleFlag(r: int, c: int)
      requires Valid() && Cell(r, c)
      modifies this`flagged
      ensures Valid()
      ensures flagged == Toggled(old(flagged), visible, gameOver, r, c)
    {
      if !visible[r][c] && !gameOver {
        flagged := Flip(flagged, r, c);
      }
    }

    /**
     * chord: on a visible number while the game runs, count the flags
     * around it.  If they match the number, reveal every hidden unflagged
     * neighbour; otherwise only list those neighbours for highlighting.
     */
    method Chord(r: int, c: int)
      requires Valid() && Cell(r, c)
      modifies this
      ensures Valid()
      ensures flagged == old(flagged) && grid == old(grid) && Grows(old(visible), visible) && (old(gameOver) ==> gameOver)
      ensures !old(visible[r][c]) || old(grid[r][c]) == 0 || old(gameOver) ==>
        visible == old(visible) && gameOver == old(gameOver) && won == old(won) && highlight == old(highlight)
      ensures old(visible[r][c]) && old(grid[r][c]) != 0 && !old(gameOver) ==>
        if Flags(flagged, r, c) == grid[r][c] then
          highlight == None &&
          forall p :: p in Neighbours(r, c) && !old(visible[p.0][p.1]) && !flagged[p.0][p.1] ==> visible[p.0][p.1] || gameOver
        else
          highlight == Some(Closed(visible, flagged, Neighbours(r, c))) &&
          visible == old(visible) && gameOver == old(gameOver) && won == old(won)
      ensures (old(visible[r][c]) && old(grid[r][c]) != 0 && !old(gameOver) &&
               FlagsRight(grid, flagged, r, c) && Flags(flagged, r, c) == grid[r][c]) ==> won == gameOver
    {
      if !visible[r][c] || grid[r][c] == 0 || gameOver {
        return;
      }
      var neighbours, flagsNear := ScanNeighbours(r, c);
      if flagsNear == grid[r][c] {
        if FlagsRight(grid, flagged, r, c) {
          ChordSafe(grid, flagged, r, c);
          ScanAround(r, c);
        }
        OpenAll(neighbours);
        highlight := None;
      } else {
        var hl := HiddenOf(neighbours);
        highlight := Some(hl);
      }
    }

    /** The first loop of chord: the cells around (r, c) in scan order, and how many of them are flagged. */
    method ScanNeighbours(r: int, c: int) returns (neighbours: seq<(int, int)>, flagsNear: nat)
      requires Field(flagged)
      ensures neighbours == Neighbours(r, c) && flagsNear == Flags(flagged, r, c)
    {
      flagsNear := 0;
      neighbours := [];
      for i := 0 to 3
        invariant neighbours == Scan(r, c, i, 0) && flagsNear == FlagsUpTo(flagged, r, c, i, 0)
      {
        neighbours, flagsNear := ScanRow(r, c, i, neighbours, flagsNear);
      }
    }

    /** One pass of chord's inner loop: row offset i - 1 of the block around (r, c). */
    method ScanRow(r: int, c: int, i: nat, ns: seq<(int, int)>, fl: nat) returns (neighbours: seq<(int, int)>, flagsNear: nat)
      requires Field(flagged) && i < 3 && ns == Scan(r, c, i, 0) && fl == FlagsUpTo(flagged, r, c, i, 0)
      ensures neighbours == Scan(r, c, i + 1, 0) && flagsNear == FlagsUpTo(flagged, r, c, i + 1, 0)
    {
      neighbours, flagsNear := ns, fl;
      for j := 0 to 3
        invariant neighbours == Scan(r, c, i, j) && flagsNear == FlagsUpTo(flagged, r, c, i, j)
      {
        ScanStep(flagged, r, c, i, j);
        var dr, dc := i - 1, j - 1;
        if !(dr == 0 && dc == 0) {
          var nr, nc := r + dr, c + dc;
          if 0 <= nr < Rows && 0 <= nc < Cols {
            neighbours := neighbours + [(nr, nc)];
            if flagged[nr][nc] { flagsNear := flagsNear + 1; }
          }
        }
      }
    }

    /** The highlighting loop of chord: the hidden unflagged cells of the list, in order. */
    method HiddenOf(ns: seq<(int, int)>) returns (hl: seq<(int, int)>)
      requires Field(visible) && Field(flagged) && OnField(ns)
      ensures hl == Closed(visible, flagged, ns)
    {
      hl := [];
      for k := 0 to |ns|
        invariant hl == Closed(visible, flagged, ns[..k])
      {
        ClosedAppend(visible, flagged, ns, k);
        var (nr, nc) := ns[k];
        if !visible[nr][nc] && !flagged[nr][nc] {
          hl := hl + [(nr, nc)];
        }
      }
      assert ns[..|ns|] == ns;
    }

    /** The opening loop of chord: reveal each hidden unflagged cell of the list. */
    method OpenAll(ns: seq<(int, int)>)
      requires Valid() && OnField(ns) && !firstClick
      modifies this
      ensures Valid() && !firstClick
      ensures flagged == old(flagged) && grid == old(grid) && highlight == old(highlight)
      ensures Grows(old(visible), visible) && (old(gameOver) ==> gameOver)
      ensures forall p :: p in ns && !old(visible[p.0][p.1]) && !flagged[p.0][p.1] ==> visible[p.0][p.1] || gameOver
      ensures !old(gameOver) && (forall p :: p in ns && !flagged[p.0][p.1] ==> grid[p.0][p.1] != Mine) ==> won == gameOver
    {
      ghost var v0 := visible;
      for k := 0 to |ns|
        invariant Valid() && !firstClick && flagged == old(flagged) && grid == old(grid) && highlight == old(highlight)
        invariant Grows(v0, visible) && (old(gameOver) ==> gameOver)
        invariant forall n :: 0 <= n < k && !v0[ns[n].0][ns[n].1] && !flagged[ns[n].0][ns[n].1] ==>
          visible[ns[n].0][ns[n].1] || gameOver
        invariant !old(gameOver) && (forall p :: p in ns && !flagged[p.0][p.1] ==> grid[p.0][p.1] != Mine) ==> won == gameOver
      {
        var (nr, nc) := ns[k];
        if !visible[nr][nc] && !flagged[nr][nc] {
          Reveal(nr, nc, []);
        }
      }
    }
  }
}

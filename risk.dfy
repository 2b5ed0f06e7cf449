/**
 * Risk for two players, the human (player 0) and the AI (player 1), on a
 * map of territories joined by links.  Territories are numbered; each has
 * an owner, a number of armies and a list of neighbours.  A turn is a
 * draft of new armies, a series of attacks and a fortify move.  Dice,
 * the shuffle of the first distribution and the AI's random draft choice
 * are inputs.
 */
module Risk {
  import opened Options

  type Territory = nat
  type Link = (Territory, Territory)

  // ---------------------------------------------------------------------
  // The map

  /** Every neighbour named is a territory of the map. */
  predicate Graph(nbrs: seq<seq<Territory>>)
  {
    forall t, i :: 0 <= t < |nbrs| && 0 <= i < |nbrs[t]| ==> nbrs[t][i] < |nbrs|
  }

  /** Each territory is a neighbour of its neighbours. */
  predicate Symmetric(nbrs: seq<seq<Territory>>)
  {
    forall u, v :: 0 <= u < |nbrs| && 0 <= v < |nbrs| ==> (v in nbrs[u] <==> u in nbrs[v])
  }

  /** The neighbours one link adds to territory `t`: each end gets the other, when both are on the map. */
  function LinkEnds(c: Link, n: nat, t: Territory): seq<Territory>
  {
    if c.0 < n && c.1 < n then
      (if c.0 == t then [c.1] else []) + (if c.1 == t then [c.0] else [])
    else []
  }

  /** The neighbour list setup_map builds for `t` from the links `cs`, in the order of the links. */
  function Neighbours(cs: seq<Link>, n: nat, t: Territory): seq<Territory>
  {
    if cs == [] then [] else Neighbours(cs[..|cs| - 1], n, t) + LinkEnds(cs[|cs| - 1], n, t)
  }

  /** `v` is a neighbour of `u` exactly when some link on the map joins them, either way round. */
  lemma {:induction false} NeighboursJoin(cs: seq<Link>, n: nat, u: Territory, v: Territory)
    ensures v in Neighbours(cs, n, u) <==>
      exists k :: 0 <= k < |cs| && cs[k].0 < n && cs[k].1 < n && (cs[k] == (u, v) || cs[k] == (v, u))
  {
    if cs != [] {
      var front := cs[..|cs| - 1];
      NeighboursJoin(front, n, u, v);
      if v in Neighbours(cs, n, u) && v !in Neighbours(front, n, u) {
        assert v in LinkEnds(cs[|cs| - 1], n, u);
        assert cs[|cs| - 1].0 < n && cs[|cs| - 1].1 < n && (cs[|cs| - 1] == (u, v) || cs[|cs| - 1] == (v, u));
      }
      if exists k :: 0 <= k < |cs| && cs[k].0 < n && cs[k].1 < n && (cs[k] == (u, v) || cs[k] == (v, u)) {
        var k :| 0 <= k < |cs| && cs[k].0 < n && cs[k].1 < n && (cs[k] == (u, v) || cs[k] == (v, u));
        if k < |cs| - 1 {
          assert front[k] == cs[k];
        } else {
          assert v in LinkEnds(cs[k], n, u);
        }
      }
    }
  }

  /** The map setup_map builds is symmetric and names only its own territories. */
  lemma NeighboursSymmetric(cs: seq<Link>, n: nat, u: Territory, v: Territory)
    ensures v in Neighbours(cs, n, u) <==> u in Neighbours(cs, n, v)
    ensures v in Neighbours(cs, n, u) ==> u < n && v < n
  {
    NeighboursJoin(cs, n, u, v);
    NeighboursJoin(cs, n, v, u);
  }

  /**
   * setup_map: a territory per node, then for each link on the map each
   * end is appended to the other's neighbours.
   */
  method SetupMap(n: nat, cs: seq<Link>) returns (nbrs: seq<seq<Territory>>)
    ensures |nbrs| == n && forall t :: 0 <= t < n ==> nbrs[t] == Neighbours(cs, n, t)
  {
    nbrs := seq(n, _ => []);
    for k := 0 to |cs|
      invariant |nbrs| == n && forall t :: 0 <= t < n ==> nbrs[t] == Neighbours(cs[..k], n, t)
    {
      NeighboursStep(cs, k, n);
      nbrs := Connect(nbrs, n, cs[k]);
    }
    assert cs[..|cs|] == cs;
  }

  lemma NeighboursStep(cs: seq<Link>, k: nat, n: nat)
    requires k < |cs|
    ensures forall t :: Neighbours(cs[..k + 1], n, t) == Neighbours(cs[..k], n, t) + LinkEnds(cs[k], n, t)
  {
    assert cs[..k + 1][..k] == cs[..k];
  }

  /** One link of setup_map: when both ends are on the map, each is appended to the other's neighbours. */
  method Connect(nbrs: seq<seq<Territory>>, n: nat, c: Link) returns (nbrs': seq<seq<Territory>>)
    requires |nbrs| == n
    ensures |nbrs'| == n && forall t :: 0 <= t < n ==> nbrs'[t] == nbrs[t] + LinkEnds(c, n, t)
  {
    nbrs' := nbrs;
    var (a, b) := c;
    if a < n && b < n {
      nbrs' := nbrs'[a := nbrs'[a] + [b]];
      nbrs' := nbrs'[b := nbrs'[b] + [a]];
    }
  }

  /** The map of setup_map is a symmetric graph on its territories. */
  lemma SetupMapGraph(n: nat, cs: seq<Link>, nbrs: seq<seq<Territory>>)
    requires |nbrs| == n && forall t :: 0 <= t < n ==> nbrs[t] == Neighbours(cs, n, t)
    ensures Graph(nbrs) && Symmetric(nbrs)
  {
    forall t, i | 0 <= t < n && 0 <= i < |nbrs[t]| ensures nbrs[t][i] < n {
      NeighboursSymmetric(cs, n, t, nbrs[t][i]);
    }
    forall u, v | 0 <= u < n && 0 <= v < n ensures v in nbrs[u] <==> u in nbrs[v] {
      NeighboursSymmetric(cs, n, u, v);
    }
  }

  // ---------------------------------------------------------------------
  // Connected territories

  /** A walk along links through territories owned by `o`. */
  ghost predicate Walk(nbrs: seq<seq<Territory>>, owner: seq<int>, o: int, p: seq<Territory>)
  {
    |p| > 0 &&
    (forall i :: 0 <= i < |p| ==> p[i] < |nbrs| && p[i] < |owner| && owner[p[i]] == o) &&
    (forall i, j :: 0 <= i && j == i + 1 && j < |p| ==> p[j] in nbrs[p[i]])
  }

  /** Some walk through the owner of `s` leads from `s` to `t`. */
  ghost predicate Reaches(nbrs: seq<seq<Territory>>, owner: seq<int>, s: Territory, t: Territory)
    requires s < |owner|
  {
    exists p :: Walk(nbrs, owner, owner[s], p) && p[0] == s && p[|p| - 1] == t
  }

  /** The territories a walk through the owner of `s` leads to from `s`. */
  ghost function Region(nbrs: seq<seq<Territory>>, owner: seq<int>, s: Territory): set<Territory>
    requires s < |owner|
  {
    set t | 0 <= t < |nbrs| && Reaches(nbrs, owner, s, t)
  }

  lemma RegionStart(nbrs: seq<seq<Territory>>, owner: seq<int>, s: Territory)
    requires |owner| == |nbrs| && s < |nbrs|
    ensures s in Region(nbrs, owner, s)
  {
    assert Walk(nbrs, owner, owner[s], [s]);
  }

  /** A neighbour with the same owner of a territory of the region belongs to it. */
  lemma RegionStep(nbrs: seq<seq<Territory>>, owner: seq<int>, s: Territory, u: Territory, v: Territory)
    requires Graph(nbrs) && |owner| == |nbrs| && s < |nbrs|
    requires u in Region(nbrs, owner, s) && v in nbrs[u] && owner[v] == owner[s]
    ensures v in Region(nbrs, owner, s)
  {
    var p :| Walk(nbrs, owner, owner[s], p) && p[0] == s && p[|p| - 1] == u;
    var q := p + [v];
    assert forall i :: 0 <= i < |p| ==> q[i] == p[i];
    assert Walk(nbrs, owner, owner[s], q) && q[0] == s && q[|q| - 1] == v;
  }

  /** Every territory of the region is on the map and held by the owner of its start. */
  lemma RegionMembers(nbrs: seq<seq<Territory>>, owner: seq<int>, s: Territory, t: Territory)
    requires |owner| == |nbrs| && s < |nbrs| && t in Region(nbrs, owner, s)
    ensures t < |nbrs| && owner[t] == owner[s]
  {
    var p :| Walk(nbrs, owner, owner[s], p) && p[0] == s && p[|p| - 1] == t;
    assert p[|p| - 1] < |nbrs|;
  }

  /** No neighbour held by `o` of a territory of `S` lies outside `S`. */
  ghost predicate Closed(nbrs: seq<seq<Territory>>, owner: seq<int>, o: int, S: set<Territory>)
    requires Graph(nbrs) && |owner| == |nbrs|
  {
    forall u, v :: u in S && u < |nbrs| && v in nbrs[u] && owner[v] == o ==> v in S
  }

  lemma {:induction false} WalkInside(nbrs: seq<seq<Territory>>, owner: seq<int>, o: int, S: set<Territory>, p: seq<Territory>, i: nat)
    requires Graph(nbrs) && |owner| == |nbrs| && Closed(nbrs, owner, o, S)
    requires Walk(nbrs, owner, o, p) && p[0] in S && i < |p|
    ensures p[i] in S
  {
    if i > 0 {
      WalkInside(nbrs, owner, o, S, p, i - 1);
      assert p[i] in nbrs[p[i - 1]];
    }
  }

  /** A closed set holding `s` holds the whole region of `s`. */
  lemma ClosedHasRegion(nbrs: seq<seq<Territory>>, owner: seq<int>, s: Territory, S: set<Territory>)
    requires Graph(nbrs) && |owner| == |nbrs| && s < |nbrs|
    requires s in S && Closed(nbrs, owner, owner[s], S)
    ensures Region(nbrs, owner, s) <= S
  {
    forall t | t in Region(nbrs, owner, s) ensures t in S {
      var p :| Walk(nbrs, owner, owner[s], p) && p[0] == s && p[|p| - 1] == t;
      WalkInside(nbrs, owner, owner[s], S, p, |p| - 1);
    }
  }

  /** No territory appears twice. */
  predicate NoDup(s: seq<Territory>)
  {
    forall i, j :: 0 <= i < j < |s| ==> s[i] != s[j]
  }

  /**
   * get_connected_territories: a breadth-first search from `start` through
   * territories with the owner of `start`.  The result lists, once each,
   * every territory of the region of `start` other than `start` itself.
   */
  method ConnectedTerritories(nbrs: seq<seq<Territory>>, owner: seq<int>, start: Territory) returns (connected: seq<Territory>)
    requires Graph(nbrs) && |owner| == |nbrs| && start < |nbrs|
    ensures NoDup(connected) && start !in connected && forall i :: 0 <= i < |connected| ==> connected[i] < |nbrs|
    ensures forall t :: t in connected <==> t in Region(nbrs, owner, start) && t != start
  {
    var o := owner[start];
    ghost var region := Region(nbrs, owner, start);
    RegionStart(nbrs, owner, start);
    connected := [];
    var queue := [start];
    var visited := {start};
    ghost var done: set<Territory> := {};
    while queue != []
      invariant visited <= region && start in visited
      invariant forall v :: v in visited <==> v in done || v in queue
      invariant NoDup(queue) && forall v :: v in queue ==> v !in done
      invariant NoDup(connected) && forall t :: t in connected <==> t in done && t != start
      invariant forall u, v :: u in done && u < |nbrs| && v in nbrs[u] && owner[v] == o ==> v in visited
      decreases region - done
    {
      var current := queue[0];
      queue := queue[1..];
      RegionMembers(nbrs, owner, start, current);
      if current != start {
        connected := connected + [current];
      }
      ghost var before := visited;
      visited, queue := Enqueue(nbrs, owner, o, current, visited, queue);
      forall v | v in visited ensures v in region {
        if v !in before {
          RegionStep(nbrs, owner, start, current, v);
        }
      }
      done := done + {current};
    }
    assert Closed(nbrs, owner, o, visited);
    ClosedHasRegion(nbrs, owner, start, visited);
    forall i | 0 <= i < |connected| ensures connected[i] < |nbrs| {
      RegionMembers(nbrs, owner, start, connected[i]);
    }
  }

  /**
   * The inner loop of get_connected_territories: each neighbour of
   * `current` held by `o` and not yet visited is marked visited and queued.
   */
  method Enqueue(nbrs: seq<seq<Territory>>, owner: seq<int>, o: int, current: Territory, visited: set<Territory>, queue: seq<Territory>)
    returns (visited': set<Territory>, queue': seq<Territory>)
    requires Graph(nbrs) && |owner| == |nbrs| && current < |nbrs|
    requires NoDup(queue) && forall v :: v in queue ==> v in visited
    ensures forall v :: v in visited' <==> v in visited || (v in nbrs[current] && owner[v] == o)
    ensures forall v :: v in queue' <==> v in queue || (v in visited' && v !in visited)
    ensures NoDup(queue')
  {
    visited', queue' := visited, queue;
    for k := 0 to |nbrs[current]|
      invariant forall v :: v in visited' <==> v in visited || (v in nbrs[current][..k] && owner[v] == o)
      invariant forall v :: v in queue' <==> v in queue || (v in visited' && v !in visited)
      invariant NoDup(queue')
    {
      var neighbour := nbrs[current][k];
      assert nbrs[current][..k + 1] == nbrs[current][..k] + [neighbour];
      if owner[neighbour] == o && neighbour !in visited' {
        visited' := visited' + {neighbour};
        queue' := queue' + [neighbour];
      }
    }
    assert nbrs[current][..|nbrs[current]|] == nbrs[current];
  }

  // ---------------------------------------------------------------------
  // Battles

  /** The attacker rolls up to three dice and always leaves one army at home. */
  function AttackDice(armies: int): (k: int)
    ensures k <= 3 && k <= armies - 1 && (k == 3 || k == armies - 1)
  {
    if 3 < armies - 1 then 3 else armies - 1
  }

  /** The defender rolls up to two dice, no more than its armies. */
  function DefenceDice(armies: int): (k: int)
    ensures k <= 2 && k <= armies && (k == 2 || k == armies)
  {
    if 2 < armies then 2 else armies
  }

  predicate Descending(s: seq<int>)
  {
    forall i, j :: 0 <= i < j < |s| ==> s[i] >= s[j]
  }

  /** `x` placed into a list sorted from high to low, before the first value it is not below. */
  function InsertDown(x: int, s: seq<int>): (r: seq<int>)
    ensures |r| == |s| + 1
  {
    if s == [] || x >= s[0] then [x] + s else [s[0]] + InsertDown(x, s[1..])
  }

  /** sorted(..., reverse=True), as an insertion sort. */
  function SortDown(s: seq<int>): (r: seq<int>)
    ensures |r| == |s|
  {
    if s == [] then [] else InsertDown(s[0], SortDown(s[1..]))
  }

  lemma {:induction false} InsertDownPerm(x: int, s: seq<int>)
    ensures multiset(InsertDown(x, s)) == multiset(s) + multiset{x}
  {
    if s != [] && x < s[0] {
      InsertDownPerm(x, s[1..]);
      assert s == [s[0]] + s[1..];
    }
  }

  lemma {:induction false} InsertDownSorted(x: int, s: seq<int>)
    requires Descending(s)
    ensures Descending(InsertDown(x, s))
  {
    if s != [] && x < s[0] {
      var r := InsertDown(x, s[1..]);
      InsertDownSorted(x, s[1..]);
      InsertDownPerm(x, s[1..]);
      forall i | 0 <= i < |r| ensures r[i] <= s[0] {
        assert r[i] in multiset(s[1..]) + multiset{x};
      }
    }
  }

  /** The sorted dice are the rolled dice, from high to low. */
  lemma {:induction false} SortDownSorted(s: seq<int>)
    ensures Descending(SortDown(s)) && multiset(SortDown(s)) == multiset(s)
  {
    if s != [] {
      SortDownSorted(s[1..]);
      InsertDownSorted(s[0], SortDown(s[1..]));
      InsertDownPerm(s[0], SortDown(s[1..]));
      assert s == [s[0]] + s[1..];
    }
  }

  /** How many of the first `k` pairs of sorted dice the attacker wins: a tie goes to the defender. */
  function AttackerWins(att: seq<int>, def: seq<int>, k: nat): nat
    requires k <= |att| && k <= |def|
  {
    if k == 0 then 0 else AttackerWins(att, def, k - 1) + (if att[k - 1] > def[k - 1] then 1 else 0)
  }

  /** The attacker wins at most every pair, and wins every pair exactly when each of its dice beats the defender's. */
  lemma {:induction false} AttackerWinsAll(att: seq<int>, def: seq<int>, k: nat)
    requires k <= |att| && k <= |def|
    ensures AttackerWins(att, def, k) <= k
    ensures AttackerWins(att, def, k) == k <==> forall i :: 0 <= i < k ==> att[i] > def[i]
  {
    if k > 0 {
      AttackerWinsAll(att, def, k - 1);
    }
  }

  /** The comparison loop of resolve_battle: each pair lost costs the loser one army. */
  method Compare(att: seq<int>, def: seq<int>) returns (lossAtt: nat, lossDef: nat)
    ensures var k := if |att| < |def| then |att| else |def|;
      lossDef == AttackerWins(att, def, k) && lossAtt + lossDef == k
  {
    var comparisons := if |att| < |def| then |att| else |def|;
    lossAtt, lossDef := 0, 0;
    for i := 0 to comparisons
      invariant lossDef == AttackerWins(att, def, i) && lossAtt + lossDef == i
    {
      if att[i] > def[i] {
        lossDef := lossDef + 1;
      } else {
        lossAtt := lossAtt + 1;
      }
    }
  }

  /** The attacker's dice of a battle, sorted from high to low: the first draws of `dice`. */
  function AttackRoll(attArmies: int, dice: seq<int>): seq<int>
    requires attArmies > 1 && |dice| >= 5
  {
    SortDown(dice[..AttackDice(attArmies)])
  }

  /** The defender's dice, sorted from high to low: the draws after the attacker's. */
  function DefenceRoll(attArmies: int, defArmies: int, dice: seq<int>): seq<int>
    requires attArmies > 1 && defArmies >= 0 && |dice| >= 5
  {
    var ac := AttackDice(attArmies);
    SortDown(dice[ac..ac + DefenceDice(defArmies)])
  }

  /** How many pairs of dice are compared: as many as the smaller roll has. */
  function Pairs(attArmies: int, defArmies: int): int
    requires attArmies > 1 && defArmies >= 0
  {
    var ac, dc := AttackDice(attArmies), DefenceDice(defArmies);
    if ac < dc then ac else dc
  }

  /** The armies the defender loses: the pairs the attacker wins. */
  function DefenderLoss(attArmies: int, defArmies: int, dice: seq<int>): nat
    requires attArmies > 1 && defArmies >= 0 && |dice| >= 5
  {
    AttackerWins(AttackRoll(attArmies, dice), DefenceRoll(attArmies, defArmies, dice), Pairs(attArmies, defArmies))
  }

  /** Both rolls are the drawn dice, sorted from high to low, and each die the attacker rolls leaves one army at home. */
  lemma Rolls(attArmies: int, defArmies: int, dice: seq<int>)
    requires attArmies > 1 && defArmies >= 0 && |dice| >= 5
    ensures var ac := AttackDice(attArmies);
      1 <= ac <= 3 && ac < attArmies &&
      Descending(AttackRoll(attArmies, dice)) && multiset(AttackRoll(attArmies, dice)) == multiset(dice[..ac]) &&
      Descending(DefenceRoll(attArmies, defArmies, dice)) &&
      multiset(DefenceRoll(attArmies, defArmies, dice)) == multiset(dice[ac..ac + DefenceDice(defArmies)])
  {
    var ac, dc := AttackDice(attArmies), DefenceDice(defArmies);
    assert AttackRoll(attArmies, dice) == SortDown(dice[..ac]);
    assert DefenceRoll(attArmies, defArmies, dice) == SortDown(dice[ac..ac + dc]);
    SortDownSorted(dice[..ac]);
    SortDownSorted(dice[ac..ac + dc]);
  }

  /**
   * A battle loses the two sides as many armies together as pairs were
   * compared.  A defender with armies is wiped out only when the attacker
   * wins every pair, so a conquering attacker loses none in the battle and
   * keeps at least one army after moving in.
   */
  lemma Conquest(attArmies: int, defArmies: int, dice: seq<int>)
    requires attArmies > 1 && defArmies >= 1 && |dice| >= 5
    ensures DefenderLoss(attArmies, defArmies, dice) <= Pairs(attArmies, defArmies)
    ensures defArmies - DefenderLoss(attArmies, defArmies, dice) <= 0 ==>
      var att, def := AttackRoll(attArmies, dice), DefenceRoll(attArmies, defArmies, dice);
      DefenderLoss(attArmies, defArmies, dice) == Pairs(attArmies, defArmies) &&
      (forall i :: 0 <= i < Pairs(attArmies, defArmies) ==> att[i] > def[i]) &&
      attArmies - AttackDice(attArmies) >= 1
  {
    AttackerWinsAll(AttackRoll(attArmies, dice), DefenceRoll(attArmies, defArmies, dice), Pairs(attArmies, defArmies));
  }

  /** The dice and the comparison of resolve_battle, for an attacker with more than one army. */
  method Roll(attArmies: int, defArmies: int, dice: seq<int>) returns (att: seq<int>, def: seq<int>, lossAtt: nat, lossDef: nat)
    requires attArmies > 1 && defArmies >= 0 && |dice| >= 5
    ensures att == AttackRoll(attArmies, dice) && def == DefenceRoll(attArmies, defArmies, dice)
    ensures lossDef == DefenderLoss(attArmies, defArmies, dice) && lossAtt + lossDef == Pairs(attArmies, defArmies)
  {
    var ac := AttackDice(attArmies);
    var dc := DefenceDice(defArmies);
    att := SortDown(dice[..ac]);
    def := SortDown(dice[ac..ac + dc]);
    lossAtt, lossDef := Compare(att, def);
  }

  /** The sum of the armies on the map. */
  function Total(armies: seq<int>): int
  {
    if armies == [] then 0 else Total(armies[..|armies| - 1]) + armies[|armies| - 1]
  }

  /** Changing the armies of one territory changes the sum by the difference. */
  lemma {:induction false} TotalUpdate(armies: seq<int>, t: nat, v: int)
    requires t < |armies|
    ensures Total(armies[t := v]) == Total(armies) - armies[t] + v
  {
    var n := |armies|;
    if t < n - 1 {
      assert armies[t := v][..n - 1] == armies[..n - 1][t := v];
      TotalUpdate(armies[..n - 1], t, v);
    } else {
      assert armies[t := v][..n - 1] == armies[..n - 1];
    }
  }

  /**
   * What resolve_battle leaves of owners and armies when territory `a`
   * attacks `d` and the defender loses `loss` of the `pairs` dice
   * compared, and whether `d` was conquered.
   */
  function Battle(owner: seq<int>, armies: seq<int>, a: Territory, d: Territory, pairs: int, loss: int): (seq<int>, seq<int>, bool)
    requires |owner| == |armies| && a < |armies| && d < |armies|
  {
    var left := armies[a] - (pairs - loss);
    if armies[d] - loss <= 0 then
      var moveIn := AttackDice(armies[a]);
      (owner[d := owner[a]], armies[a := left - moveIn][d := moveIn], true)
    else
      (owner, armies[a := left][d := armies[d] - loss], false)
  }

  /** Two players each holding territories with at least one army: what a map of Risk keeps. */
  predicate Held(owner: seq<int>, armies: seq<int>)
  {
    |owner| == |armies| && forall t :: 0 <= t < |owner| ==> (owner[t] == 0 || owner[t] == 1) && armies[t] >= 1
  }

  /**
   * A battle between two territories keeps every territory held with at
   * least one army; only the defender can change hands, to the attacker's
   * owner with the armies that moved in; only the two territories' armies
   * change, and the map loses one army for each pair of dice compared.
   */
  lemma BattleKeeps(owner: seq<int>, armies: seq<int>, a: Territory, d: Territory, pairs: int, loss: int)
    requires Held(owner, armies) && a < |armies| && d < |armies| && a != d && armies[a] > 1
    requires pairs == Pairs(armies[a], armies[d]) && 0 <= loss <= pairs
    ensures var r := Battle(owner, armies, a, d, pairs, loss);
      Held(r.0, r.1) && |r.0| == |owner| &&
      (forall t :: 0 <= t < |owner| && t != d ==> r.0[t] == owner[t]) &&
      (forall t :: 0 <= t < |owner| && t != a && t != d ==> r.1[t] == armies[t]) &&
      (r.2 ==> loss == pairs && r.0[d] == owner[a] && r.1[d] == AttackDice(armies[a])) &&
      (!r.2 ==> r.0 == owner)
  {
  }

  /** The map loses one army for each pair of dice compared. */
  lemma BattleTotal(owner: seq<int>, armies: seq<int>, a: Territory, d: Territory, pairs: int, loss: int)
    requires |owner| == |armies| && a < |armies| && d < |armies| && a != d && 0 <= loss <= pairs <= armies[d]
    ensures Total(Battle(owner, armies, a, d, pairs, loss).1) == Total(armies) - pairs
  {
    var r := Battle(owner, armies, a, d, pairs, loss);
    BattleArmies(owner, armies, a, d, pairs, loss);
    TotalFrame(armies, r.1, a, d);
  }

  /** Only the two territories' armies change, and together they lose one army per pair compared. */
  lemma BattleArmies(owner: seq<int>, armies: seq<int>, a: Territory, d: Territory, pairs: int, loss: int)
    requires |owner| == |armies| && a < |armies| && d < |armies| && a != d && 0 <= loss <= pairs <= armies[d]
    ensures var r := Battle(owner, armies, a, d, pairs, loss);
      |r.1| == |armies| && (forall t :: 0 <= t < |armies| && t != a && t != d ==> r.1[t] == armies[t]) &&
      r.1[a] + r.1[d] == armies[a] + armies[d] - pairs
  {
  }

  /** Changing two territories changes the sum by their differences. */
  lemma {:induction false} TotalFrame(s: seq<int>, s2: seq<int>, a: nat, d: nat)
    requires |s2| == |s| && a < |s| && d < |s| && a != d
    requires forall t :: 0 <= t < |s| && t != a && t != d ==> s2[t] == s[t]
    ensures Total(s2) == Total(s) - s[a] - s[d] + s2[a] + s2[d]
  {
    var mid := s[a := s2[a]];
    TotalUpdate(s, a, s2[a]);
    TotalUpdate(mid, d, s2[d]);
    assert mid[d := s2[d]] == s2;
  }

  // ---------------------------------------------------------------------
  // Turns

  /** The number of territories held by player `p`. */
  function Owned(owner: seq<int>, p: int): (k: nat)
    ensures k <= |owner|
    ensures k == 0 <==> forall t :: 0 <= t < |owner| ==> owner[t] != p
  {
    if owner == [] then 0
    else
      var front := owner[..|owner| - 1];
      assert forall t :: 0 <= t < |front| ==> front[t] == owner[t];
      Owned(front, p) + (if owner[|owner| - 1] == p then 1 else 0)
  }

  /** With two players, every territory counts for exactly one of them. */
  lemma {:induction false} OwnedSplit(owner: seq<int>)
    requires forall t :: 0 <= t < |owner| ==> owner[t] == 0 || owner[t] == 1
    ensures Owned(owner, 0) + Owned(owner, 1) == |owner|
  {
    if owner != [] {
      var front := owner[..|owner| - 1];
      assert forall t :: 0 <= t < |front| ==> front[t] == owner[t];
      OwnedSplit(front);
    }
  }

  /** The draft of start_turn: three armies, or one per three territories held when that is more. */
  function Bonus(owned: nat): (r: nat)
    ensures r >= 3
    ensures owned < 9 ==> r == 3
    ensures owned >= 9 ==> 3 * r <= owned < 3 * r + 3
  {
    if 3 < owned / 3 then owned / 3 else 3
  }

  datatype Phase = Draft | Attack | Fortify

  /** The status line. */
  datatype Message =
    | Initializing | GameOver | DraftOf(player: int, pool: int) | DraftDone | PlaceAllFirst
    | AttackPhase | SelectTarget | AttackCancelled | Rolled(att: seq<int>, def: seq<int>, conquered: bool)
    | FortifyPhase | NoConnected | SelectDestination | FortifyCancelled | MovedOne

  /** A territory the AI may attack from and one it may attack: its own with more than two armies against a human neighbour it outnumbers by more than one. */
  predicate AiAttack(nbrs: seq<seq<Territory>>, owner: seq<int>, armies: seq<int>, a: Territory, b: Territory)
    requires Graph(nbrs) && |owner| == |nbrs| && |armies| == |nbrs|
  {
    a < |nbrs| && b in nbrs[a] && owner[a] == 1 && armies[a] > 2 && owner[b] == 0 && armies[a] - armies[b] > 1
  }

  /** The territories selected, targeted and offered are on the map. */
  predicate Selection(n: nat, selected: Option<Territory>, target: Option<Territory>, offered: seq<Territory>)
  {
    (selected.Some? ==> selected.value < n) && (target.Some? ==> target.value < n) &&
    forall i :: 0 <= i < |offered| ==> offered[i] < n
  }

  /** While a fortify source is selected, the destinations offered are the other territories of its region. */
  ghost predicate Offered(nbrs: seq<seq<Territory>>, owner: seq<int>, phase: Phase, selected: Option<Territory>, offered: seq<Territory>)
  {
    phase == Fortify && selected.Some? && selected.value < |owner| ==>
      forall t :: t in offered <==> t in Region(nbrs, owner, selected.value) && t != selected.value
  }

  /** initial_distribution: the territories in shuffled order go to the two players in turn, three armies each. */
  method Distribute(n: nat, order: seq<Territory>) returns (owner: seq<int>, armies: seq<int>)
    requires |order| == n && NoDup(order) && forall i :: 0 <= i < n ==> order[i] < n
    ensures |owner| == n && |armies| == n
    ensures forall i :: 0 <= i < n ==> owner[order[i]] == i % 2 && armies[order[i]] == 3
  {
    owner, armies := seq(n, _ => -1), seq(n, _ => 0);
    for k := 0 to n
      invariant |owner| == n && |armies| == n
      invariant forall i :: 0 <= i < k ==> owner[order[i]] == i % 2 && armies[order[i]] == 3
    {
      owner := owner[order[k] := k % 2];
      armies := armies[order[k] := 3];
    }
  }

  class RiskGame {
    const nbrs: seq<seq<Territory>>
    var owner: seq<int>
    var armies: seq<int>
    /** 0 for the human, 1 for the AI. */
    var turn: int
    var phase: Phase
    var draftPool: int
    var selected: Option<Territory>
    var target: Option<Territory>
    var fortifyTargets: seq<Territory>
    var message: Message
    /** Frames the AI waits before its next action. */
    var aiTimer: int

    /**
     * Every territory belongs to one of the two players and holds at least
     * one army; while a fortify source is selected, the destinations
     * offered are the other territories of its region.
     */
    ghost predicate Valid()
      reads this
    {
      Graph(nbrs) && Symmetric(nbrs) && |owner| == |nbrs| && Held(owner, armies) &&
      (turn == 0 || turn == 1) && draftPool >= 0 && Selection(|nbrs|, selected, target, fortifyTargets) &&
      Offered(nbrs, owner, phase, selected, fortifyTargets)
    }

    /**
     * RiskGame(): the map from the links, the territories dealt out in
     * the shuffled `order`, and the human's first turn.
     */
    constructor (n: nat, cs: seq<Link>, order: seq<Territory>)
      requires |order| == n && NoDup(order) && forall i :: 0 <= i < n ==> order[i] < n
      requires forall t :: 0 <= t < n ==> t in order
      ensures Valid() && turn == 0 && phase == Draft
      ensures |nbrs| == n && forall t :: 0 <= t < n ==> nbrs[t] == Neighbours(cs, n, t)
      ensures forall i :: 0 <= i < n ==> owner[order[i]] == i % 2 && armies[order[i]] == 3
      ensures selected == None && target == None && fortifyTargets == []
      ensures Owned(owner, 0) == 0 ==> message == GameOver && draftPool == 0 && aiTimer == 0
      ensures Owned(owner, 0) > 0 ==> draftPool == Bonus(Owned(owner, 0)) && message == DraftOf(0, draftPool) && aiTimer == 30
    {
      var links := SetupMap(n, cs);
      SetupMapGraph(n, cs, links);
      var o, a := Distribute(n, order);
      nbrs := links;
      owner, armies := o, a;
      turn := 0;
      phase := Draft;
      draftPool := 0;
      selected, target := None, None;
      fortifyTargets := [];
      message := Initializing;
      aiTimer := 0;
      new;
      forall t | 0 <= t < n ensures (owner[t] == 0 || owner[t] == 1) && armies[t] >= 1 {
        assert t in order;
        var i :| 0 <= i < |order| && order[i] == t;
      }
      StartTurn();
    }

    /**
     * start_turn: the draft phase with nothing selected; a player with no
     * territory ends the game, any other drafts its bonus.
     */
    method StartTurn()
      requires Valid()
      modifies this`phase, this`selected, this`target, this`fortifyTargets, this`message, this`draftPool, this`aiTimer
      ensures Valid() && phase == Draft && selected == None && target == None && fortifyTargets == []
      ensures Owned(owner, turn) == 0 ==> message == GameOver && draftPool == old(draftPool) && aiTimer == old(aiTimer)
      ensures Owned(owner, turn) > 0 ==>
        draftPool == Bonus(Owned(owner, turn)) && message == DraftOf(turn, draftPool) && aiTimer == 30
    {
      phase := Draft;
      selected, target := None, None;
      fortifyTargets := [];
      var owned := Owned(owner, turn);
      if owned == 0 {
        message := GameOver;
        return;
      }
      draftPool := Bonus(owned);
      message := DraftOf(turn, draftPool);
      aiTimer := 30;
    }

    /**
     * next_phase: the draft ends only once the pool is spent; the attack
     * ends with the selection cleared; the fortify ends the turn, and the
     * other player's turn starts.
     */
    method NextPhase()
      requires Valid()
      modifies this`phase, this`message, this`selected, this`target, this`turn, this`fortifyTargets, this`draftPool, this`aiTimer
      ensures Valid()
      ensures old(phase) != Fortify ==>
        turn == old(turn) && draftPool == old(draftPool) && fortifyTargets == old(fortifyTargets) && aiTimer == old(aiTimer)
      ensures old(phase) == Draft && old(draftPool) == 0 ==>
        phase == Attack && message == AttackPhase && selected == old(selected) && target == old(target)
      ensures old(phase) == Draft && old(draftPool) != 0 ==>
        phase == Draft && message == PlaceAllFirst && selected == old(selected) && target == old(target)
      ensures old(phase) == Attack ==> phase == Fortify && message == FortifyPhase && selected == None && target == None
      ensures old(phase) == Fortify ==>
        turn == 1 - old(turn) && phase == Draft && selected == None && target == None && fortifyTargets == [] &&
        (Owned(owner, turn) == 0 ==> message == GameOver && draftPool == old(draftPool)) &&
        (Owned(owner, turn) > 0 ==> draftPool == Bonus(Owned(owner, turn)))
    {
      match phase
      case Draft =>
        if draftPool == 0 {
          phase := Attack;
          message := AttackPhase;
        } else {
          message := PlaceAllFirst;
        }
      case Attack =>
        phase := Fortify;
        selected, target := None, None;
        message := FortifyPhase;
      case Fortify =>
        phase := Draft;
        turn := (turn + 1) % 2;
        StartTurn();
    }

    /**
     * resolve_battle: the selected territory attacks the target with the
     * next dice drawn, the attacker's first and then the defender's.  Each
     * pair of sorted dice costs its loser an army, a tie going to the
     * defender; a defender left without armies is conquered, and the
     * attacker moves in one army per die it rolled.
     */
    method ResolveBattle(dice: seq<int>)
      requires Valid() && phase == Attack && selected.Some? && target.Some? && selected.value != target.value
      requires |dice| >= 5
      modifies this`owner, this`armies, this`selected, this`target, this`message
      ensures Valid()
      ensures old(armies[selected.value]) <= 1 ==>
        owner == old(owner) && armies == old(armies) && selected == old(selected) && target == old(target) && message == old(message)
      ensures var a, d := old(selected.value), old(target.value);
        old(armies[a]) > 1 ==>
          var r := Battle(old(owner), old(armies), a, d, Pairs(old(armies[a]), old(armies[d])), DefenderLoss(old(armies[a]), old(armies[d]), dice));
          owner == r.0 && armies == r.1 &&
          message == Rolled(AttackRoll(old(armies[a]), dice), DefenceRoll(old(armies[a]), old(armies[d]), dice), r.2) &&
          (r.2 ==> selected == None && target == None) &&
          (!r.2 ==> selected == old(selected) && target == old(target))
    {
      var a, d := selected.value, target.value;
      if armies[a] <= 1 {
        return;
      }
      var att, def, lossAtt, lossDef := Roll(armies[a], armies[d], dice);
      var conquered := Casualties(lossAtt, lossDef);
      message := Rolled(att, def, conquered);
    }

    /**
     * The end of resolve_battle, once the dice are compared: each side
     * loses its armies, and a defender left with none is conquered and
     * taken over by as many armies as the attacker rolled dice.
     */
    method Casualties(lossAtt: nat, lossDef: nat) returns (conquered: bool)
      requires Valid() && phase == Attack && selected.Some? && target.Some? && selected.value != target.value
      requires armies[selected.value] > 1 && lossAtt + lossDef == Pairs(armies[selected.value], armies[target.value])
      modifies this`owner, this`armies, this`selected, this`target
      ensures Valid()
      ensures var a, d := old(selected.value), old(target.value);
        (owner, armies, conquered) == Battle(old(owner), old(armies), a, d, lossAtt + lossDef, lossDef)
      ensures conquered ==> selected == None && target == None
      ensures !conquered ==> selected == old(selected) && target == old(target)
    {
      var a, d := selected.value, target.value;
      BattleKeeps(owner, armies, a, d, lossAtt + lossDef, lossDef);
      var moveIn := AttackDice(armies[a]);
      armies := armies[a := armies[a] - lossAtt];
      armies := armies[d := armies[d] - lossDef];
      conquered := armies[d] <= 0;
      if conquered {
        owner := owner[d := owner[a]];
        armies := armies[a := armies[a] - moveIn];
        armies := armies[d := moveIn];
        assert armies == old(armies)[a := old(armies[a]) - lossAtt - moveIn][d := moveIn];
        selected, target := None, None;
      }
    }

    /**
     * handle_click for the human: a click on a territory acts according
     * to the phase; a click off the map, or any click on the AI's turn,
     * does nothing.
     */
    method HandleClick(clicked: Option<Territory>, dice: seq<int>)
      requires Valid() && (clicked.Some? ==> clicked.value < |nbrs|) && |dice| >= 5
      modifies this`owner, this`armies, this`selected, this`target, this`fortifyTargets, this`message, this`draftPool
      ensures Valid() && phase == old(phase) && turn == old(turn)
      ensures turn == 1 || clicked.None? ==>
        owner == old(owner) && armies == old(armies) && selected == old(selected) && target == old(target) &&
        fortifyTargets == old(fortifyTargets) && message == old(message) && draftPool == old(draftPool)
      ensures phase != Attack ==> owner == old(owner)
      ensures phase != Draft ==> draftPool == old(draftPool)
      ensures phase == Draft ==> Total(armies) + draftPool == old(Total(armies) + draftPool)
      ensures phase == Fortify ==> Total(armies) == old(Total(armies))
    {
      if turn == 1 || clicked.None? {
        return;
      }
      var t := clicked.value;
      match phase
      case Draft => DraftClick(t);
      case Attack => AttackClick(t, dice);
      case Fortify => FortifyClick(t);
    }

    /** The draft branch: an army from the pool onto a territory of the player's. */
    method DraftClick(t: Territory)
      requires Valid() && phase == Draft && t < |nbrs|
      modifies this`armies, this`draftPool, this`message
      ensures Valid()
      ensures old(owner[t] == turn && draftPool > 0) ==>
        armies == old(armies)[t := old(armies[t]) + 1] && draftPool == old(draftPool) - 1 &&
        message == (if draftPool == 0 then DraftDone else old(message))
      ensures !old(owner[t] == turn && draftPool > 0) ==>
        armies == old(armies) && draftPool == old(draftPool) && message == old(message)
      ensures Total(armies) + draftPool == old(Total(armies) + draftPool)
    {
      if owner[t] == turn && draftPool > 0 {
        TotalUpdate(armies, t, armies[t] + 1);
        armies := armies[t := armies[t] + 1];
        draftPool := draftPool - 1;
        if draftPool == 0 {
          message := DraftDone;
        }
      }
    }

    /**
     * The attack branch: the first click picks a territory of the player's
     * with more than one army, a click on it again cancels, and a click on
     * an enemy neighbour attacks it.
     */
    method AttackClick(t: Territory, dice: seq<int>)
      requires Valid() && phase == Attack && t < |nbrs| && |dice| >= 5
      modifies this`owner, this`armies, this`selected, this`target, this`message
      ensures Valid()
      ensures old(selected).None? ==>
        owner == old(owner) && armies == old(armies) && target == old(target) &&
        (old(owner[t] == turn && armies[t] > 1) ==> selected == Some(t) && message == SelectTarget) &&
        (!old(owner[t] == turn && armies[t] > 1) ==> selected == None && message == old(message))
      ensures old(selected) == Some(t) ==>
        selected == None && message == AttackCancelled && owner == old(owner) && armies == old(armies) && target == old(target)
      ensures old(selected).Some? && old(selected) != Some(t) && !(t in nbrs[old(selected).value] && old(owner[t]) != turn) ==>
        owner == old(owner) && armies == old(armies) && selected == old(selected) && target == old(target) && message == old(message)
      ensures (old(selected).Some? && old(selected) != Some(t) && t in nbrs[old(selected).value] && old(owner[t]) != turn &&
        old(armies[selected.value]) <= 1) ==>
          owner == old(owner) && armies == old(armies) && selected == old(selected) && target == Some(t) && message == old(message)
      ensures (old(selected).Some? && old(selected) != Some(t) && t in nbrs[old(selected).value] && old(owner[t]) != turn &&
        old(armies[selected.value]) > 1) ==>
          var a := old(selected.value);
          var r := Battle(old(owner), old(armies), a, t, Pairs(old(armies[a]), old(armies[t])), DefenderLoss(old(armies[a]), old(armies[t]), dice));
          owner == r.0 && armies == r.1 &&
          message == Rolled(AttackRoll(old(armies[a]), dice), DefenceRoll(old(armies[a]), old(armies[t]), dice), r.2) &&
          (r.2 ==> selected == None && target == None) &&
          (!r.2 ==> selected == old(selected) && target == Some(t))
    {
      if selected.None? {
        if owner[t] == turn && armies[t] > 1 {
          selected := Some(t);
          message := SelectTarget;
        }
      } else if t == selected.value {
        selected := None;
        message := AttackCancelled;
      } else if t in nbrs[selected.value] && owner[t] != turn {
        target := Some(t);
        ResolveBattle(dice);
      }
    }

    /**
     * The fortify branch: the first click picks a territory of the
     * player's with more than one army and offers the other territories of
     * its region, or nothing when it has none; a click on it again
     * cancels; a click on an offered territory moves one army there while
     * the source keeps more than one.
     */
    method FortifyClick(t: Territory)
      requires Valid() && phase == Fortify && t < |nbrs|
      modifies this`armies, this`selected, this`fortifyTargets, this`message
      ensures Valid() && Total(armies) == old(Total(armies))
      ensures old(selected).None? && old(owner[t] == turn && armies[t] > 1) ==>
        armies == old(armies) &&
        (forall u :: u in fortifyTargets <==> u in Region(nbrs, owner, t) && u != t) &&
        (fortifyTargets == [] ==> selected == None && message == NoConnected) &&
        (fortifyTargets != [] ==> selected == Some(t) && message == SelectDestination)
      ensures old(selected).None? && !old(owner[t] == turn && armies[t] > 1) ==>
        armies == old(armies) && selected == None && fortifyTargets == old(fortifyTargets) && message == old(message)
      ensures old(selected) == Some(t) ==>
        armies == old(armies) && selected == None && fortifyTargets == [] && message == FortifyCancelled
      ensures old(selected).Some? && old(selected) != Some(t) ==>
        var s := old(selected.value);
        selected == old(selected) && fortifyTargets == old(fortifyTargets) &&
        (t in old(fortifyTargets) && old(armies[s]) > 1 ==>
          t in Region(nbrs, owner, s) && armies == old(armies)[s := old(armies[s]) - 1][t := old(armies[t]) + 1] &&
          message == MovedOne) &&
        (!(t in old(fortifyTargets) && old(armies[s]) > 1) ==> armies == old(armies) && message == old(message))
    {
      if selected.None? {
        if owner[t] == turn && armies[t] > 1 {
          selected := Some(t);
          fortifyTargets := ConnectedTerritories(nbrs, owner, t);
          if fortifyTargets == [] {
            message := NoConnected;
            selected := None;
          } else {
            message := SelectDestination;
          }
        }
      } else {
        var s := selected.value;
        if t == s {
          selected := None;
          fortifyTargets := [];
          message := FortifyCancelled;
        } else if t in fortifyTargets && armies[s] > 1 {
          MoveOne(s, t);
          message := MovedOne;
        }
      }
    }

    /** One army from `s` to `t`: the sum of the armies stays, and `s` keeps at least one. */
    method MoveOne(s: Territory, t: Territory)
      requires Valid() && s < |nbrs| && t < |nbrs| && s != t && armies[s] > 1
      modifies this`armies
      ensures Valid() && armies == old(armies)[s := old(armies[s]) - 1][t := old(armies[t]) + 1]
      ensures Total(armies) == old(Total(armies))
    {
      TotalUpdate(armies, s, armies[s] - 1);
      armies := armies[s := armies[s] - 1];
      TotalUpdate(armies, t, armies[t] + 1);
      armies := armies[t := armies[t] + 1];
    }

    /**
     * update on the AI's turn: it first waits out its timer; then in the
     * draft it places one army from the pool on a territory of its own,
     * moving on once the pool is spent; in the attack it attacks with its
     * chosen pair, dropping the selection once the attacker is down to two
     * armies, and moves on when it has no pair; in the fortify it moves on
     * at once.  `pick` is the random choice of the draft; `choice` is the
     * attack with the largest army difference.
     */
    method Update(pick: Territory, choice: Option<Link>, dice: seq<int>)
      requires Valid() && pick < |nbrs| && (Owned(owner, 1) > 0 ==> owner[pick] == 1) && |dice| >= 5
      requires choice.Some? ==>
        var (a, b) := choice.value;
        AiAttack(nbrs, owner, armies, a, b) &&
        forall x, y :: 0 <= x < |nbrs| && y in nbrs[x] && AiAttack(nbrs, owner, armies, x, y) ==>
          armies[x] - armies[y] <= armies[a] - armies[b]
      requires choice.None? ==> forall x, y :: 0 <= x < |nbrs| && y in nbrs[x] ==> !AiAttack(nbrs, owner, armies, x, y)
      modifies this
      ensures Valid()
      ensures old(turn) != 1 ==> unchanged(this)
      ensures old(turn) == 1 && old(aiTimer) > 0 ==>
        aiTimer == old(aiTimer) - 1 && owner == old(owner) && armies == old(armies) && phase == old(phase) &&
        draftPool == old(draftPool) && turn == old(turn)
      ensures old(turn) == 1 && old(aiTimer) <= 0 && old(phase) == Draft ==>
        var placed := old(Owned(owner, 1) > 0 && draftPool > 0);
        owner == old(owner) && turn == old(turn) &&
        armies == (if placed then old(armies)[pick := old(armies[pick]) + 1] else old(armies)) &&
        draftPool == (if placed then old(draftPool) - 1 else old(draftPool)) &&
        phase == (if draftPool == 0 then Attack else Draft)
      ensures (old(turn) == 1 && old(aiTimer) <= 0 && old(phase) == Attack && choice.Some?) ==>
        var (a, b) := choice.value;
        var r := Battle(old(owner), old(armies), a, b, Pairs(old(armies[a]), old(armies[b])), DefenderLoss(old(armies[a]), old(armies[b]), dice));
        owner == r.0 && armies == r.1 && phase == Attack && turn == 1
      ensures old(turn) == 1 && old(aiTimer) <= 0 && old(phase) == Attack && choice.None? ==>
        phase == Fortify && owner == old(owner) && armies == old(armies) && turn == 1
      ensures old(turn) == 1 && old(aiTimer) <= 0 && old(phase) == Fortify ==>
        phase == Draft && turn == 0 && owner == old(owner) && armies == old(armies)
    {
      if turn != 1 {
        return;
      }
      if aiTimer > 0 {
        aiTimer := aiTimer - 1;
        return;
      }
      aiTimer := 20;
      match phase
      case Draft =>
        AiDraft(pick);
      case Attack =>
        if choice.Some? {
          AiStrike(choice.value.0, choice.value.1, dice);
        } else {
          NextPhase();
        }
      case Fortify =>
        NextPhase();
    }

    /** The AI's draft: one army from the pool on its chosen territory, and on to the attack once the pool is spent. */
    method AiDraft(pick: Territory)
      requires Valid() && phase == Draft && pick < |nbrs| && (Owned(owner, 1) > 0 ==> owner[pick] == 1)
      modifies this`armies, this`draftPool, this`phase, this`message, this`selected, this`target, this`turn, this`fortifyTargets, this`aiTimer
      ensures Valid() && owner == old(owner) && turn == old(turn)
      ensures var placed := old(Owned(owner, 1) > 0 && draftPool > 0);
        armies == (if placed then old(armies)[pick := old(armies[pick]) + 1] else old(armies)) &&
        draftPool == (if placed then old(draftPool) - 1 else old(draftPool)) &&
        phase == (if draftPool == 0 then Attack else Draft)
    {
      if Owned(owner, 1) > 0 && draftPool > 0 {
        armies := armies[pick := armies[pick] + 1];
        draftPool := draftPool - 1;
      }
      if draftPool == 0 {
        NextPhase();
      }
    }

    /**
     * The AI's attack from `a` on `b`: the battle is resolved with `a` and
     * `b` selected, and the selection is dropped on a conquest or once `a`
     * is down to two armies.
     */
    method AiStrike(a: Territory, b: Territory, dice: seq<int>)
      requires Valid() && phase == Attack && AiAttack(nbrs, owner, armies, a, b) && |dice| >= 5
      modifies this`owner, this`armies, this`selected, this`target, this`message
      ensures Valid()
      ensures var r := Battle(old(owner), old(armies), a, b, Pairs(old(armies[a]), old(armies[b])), DefenderLoss(old(armies[a]), old(armies[b]), dice));
        owner == r.0 && armies == r.1 &&
        message == Rolled(AttackRoll(old(armies[a]), dice), DefenceRoll(old(armies[a]), old(armies[b]), dice), r.2) &&
        (r.2 || armies[a] <= 2 ==> selected == None && target == None) &&
        (!r.2 && armies[a] > 2 ==> selected == Some(a) && target == Some(b))
    {
      selected, target := Some(a), Some(b);
      ResolveBattle(dice);
      if armies[a] <= 2 {
        selected, target := None, None;
      }
    }
  }
}

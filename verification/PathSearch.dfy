/**
 The bots' A* search as a function of its abstract state: a priority queue with lazy deletion,
 the best known step counts and the back pointers. The loop and the heap are in PathSearchMethod.
 */
module PathSearch {
  import opened Wrappers
  import opened Grid

  datatype Node = Node(tile: Tile, g: nat, h: nat, f: nat)

  function NodeFor(goal: Tile, t: Tile, g: nat): Node {
    var h := Manhattan(t, goal);
    Node(t, g, h, g + h)
  }

  /** The order of the open heap: f, then h, then row, then column. */
  predicate Less(a: Node, b: Node) {
    if a.f != b.f then a.f < b.f
    else if a.h != b.h then a.h < b.h
    else if a.tile.y != b.tile.y then a.tile.y < b.tile.y
    else a.tile.x < b.tile.x
  }

  /** Two nodes that the order does not tell apart agree in f, h and tile, so what is popped is determined up to the way to it. */
  lemma LessIsTotal(a: Node, b: Node, c: Node)
    ensures !Less(a, b) && !Less(b, a) <==> a.f == b.f && a.h == b.h && a.tile == b.tile
    ensures !(Less(a, b) && Less(b, a)) && (Less(a, b) && Less(b, c) ==> Less(a, c))
    ensures a.f < b.f || (a.f == b.f && a.h < b.h) ==> Less(a, b)
    ensures a.f == b.f && a.h == b.h && (a.tile.y < b.tile.y || (a.tile.y == b.tile.y && a.tile.x < b.tile.x)) ==> Less(a, b)
  {
  }

  ghost predicate IsLeast(open: multiset<Node>, n: Node) {
    n in open && forall o :: o in open ==> !Less(o, n)
  }

  lemma {:induction false} LeastExists(open: multiset<Node>) returns (n: Node)
    requires open != multiset{}
    ensures IsLeast(open, n)
    decreases |open|
  {
    var c :| c in open;
    var rest := open - multiset{c};
    assert open == rest + multiset{c};
    if rest == multiset{} {
      n := c;
    } else {
      var r := LeastExists(rest);
      n := if Less(c, r) then c else r;
      LessOfTwo(c, r);
      hide Less;
    }
  }

  lemma LessOfTwo(c: Node, r: Node)
    ensures var n := if Less(c, r) then c else r;
      !Less(c, n) && !Less(r, n) && forall o :: !Less(o, r) ==> !Less(o, n)
  {
  }

  ghost function Least(open: multiset<Node>): (n: Node)
    requires open != multiset{}
    ensures IsLeast(open, n)
  {
    assert exists n :: IsLeast(open, n) by { var n := LeastExists(open); }
    var n :| IsLeast(open, n);
    n
  }

  datatype Search = Search(open: multiset<Node>, gScore: map<Tile, nat>, cameFrom: map<Tile, Tile>)

  /** The neighbours in the order in which the source tries them. */
  function Neighbor(t: Tile, k: nat): Tile
    requires k < 4
  {
    if k == 0 then Tile(t.x, t.y - 1)
    else if k == 1 then Tile(t.x, t.y + 1)
    else if k == 2 then Tile(t.x - 1, t.y)
    else Tile(t.x + 1, t.y)
  }

  /** Up, down, left, right. */
  lemma NeighborsInOrder(t: Tile)
    ensures [Neighbor(t, 0), Neighbor(t, 1), Neighbor(t, 2), Neighbor(t, 3)]
         == [Tile(t.x, t.y - 1), Tile(t.x, t.y + 1), Tile(t.x - 1, t.y), Tile(t.x + 1, t.y)]
  {
  }

  lemma NeighborsAreAdjacent(t: Tile, n: Tile)
    ensures Adjacent(t, n) <==> exists k: nat :: k < 4 && Neighbor(t, k) == n
  {
    if Adjacent(t, n) {
      assert Neighbor(t, 0) == n || Neighbor(t, 1) == n || Neighbor(t, 2) == n || Neighbor(t, 3) == n;
    }
  }

  function Initial(start: Tile, goal: Tile): Search {
    Search(multiset{NodeFor(goal, start, 0)}, map[start := 0], map[])
  }

  /** Tries neighbour `k` of the expanded node. */
  function Relax(m: MapData, goal: Tile, s: Search, current: Node, k: nat): Search
    requires k < 4
  {
    var n := Neighbor(current.tile, k);
    if !Passable(m, n) then s
    else if n in s.gScore && current.g + 1 >= s.gScore[n] then s
    else Search(s.open + multiset{NodeFor(goal, n, current.g + 1)},
                s.gScore[n := current.g + 1],
                s.cameFrom[n := current.tile])
  }

  /** Tries the first `k` neighbours. */
  function Expand(m: MapData, goal: Tile, s: Search, current: Node, k: nat): Search
    requires k <= 4
  {
    if k == 0 then s else Relax(m, goal, Expand(m, goal, s, current, k - 1), current, k - 1)
  }

  // ---------- What the loop keeps ----------

  /** The back pointers form a tree rooted at `start` along which the step count strictly falls. */
  ghost predicate Tree(m: MapData, start: Tile, s: Search) {
    && start in s.gScore && s.gScore[start] == 0
    && s.cameFrom.Keys == s.gScore.Keys - {start}
    && forall t :: t in s.cameFrom ==>
         && Passable(m, t) && Adjacent(s.cameFrom[t], t)
         && s.cameFrom[t] in s.gScore && s.gScore[s.cameFrom[t]] + 1 <= s.gScore[t]
  }

  ghost predicate Queued(goal: Tile, s: Search) {
    forall n :: n in s.open ==>
      n.tile in s.gScore && s.gScore[n.tile] <= n.g && n == NodeFor(goal, n.tile, n.g)
  }

  ghost predicate InOpen(goal: Tile, s: Search, t: Tile)
    requires t in s.gScore
  {
    NodeFor(goal, t, s.gScore[t]) in s.open
  }

  /** Neighbour `k` of `t` is known and at most one step further. */
  ghost predicate Covered(m: MapData, s: Search, t: Tile, k: nat)
    requires t in s.gScore && k < 4
  {
    var n := Neighbor(t, k);
    Passable(m, n) ==> n in s.gScore && s.gScore[n] <= s.gScore[t] + 1
  }

  ghost predicate Settled(m: MapData, goal: Tile, s: Search, t: Tile)
    requires t in s.gScore
  {
    t != goal && forall k: nat :: k < 4 ==> Covered(m, s, t, k)
  }

  ghost predicate Frontier(m: MapData, goal: Tile, s: Search, except: set<Tile>) {
    forall t :: t in s.gScore && t !in except ==> InOpen(goal, s, t) || Settled(m, goal, s, t)
  }

  ghost predicate Inv(m: MapData, start: Tile, goal: Tile, s: Search) {
    Tree(m, start, s) && Queued(goal, s) && Frontier(m, goal, s, {})
  }

  lemma InitialInv(m: MapData, start: Tile, goal: Tile)
    ensures Inv(m, start, goal, Initial(start, goal))
  {
  }

  ghost predicate Expanding(m: MapData, start: Tile, goal: Tile, s: Search, current: Node, k: nat)
    requires k <= 4
  {
    && Tree(m, start, s) && Queued(goal, s) && Frontier(m, goal, s, {current.tile})
    && current.tile in s.gScore && s.gScore[current.tile] == current.g
    && forall j: nat :: j < k ==> Covered(m, s, current.tile, j)
  }

  lemma RelaxKeepsTree(m: MapData, start: Tile, goal: Tile, s: Search, current: Node, k: nat)
    requires k < 4 && Tree(m, start, s) && Queued(goal, s)
    requires current.tile in s.gScore && s.gScore[current.tile] == current.g
    ensures var s' := Relax(m, goal, s, current, k); Tree(m, start, s') && Queued(goal, s')
  {
    var s' := Relax(m, goal, s, current, k);
    var n := Neighbor(current.tile, k);
    assert Adjacent(current.tile, n);
    if s' != s {
      assert n != start;
      assert s'.cameFrom.Keys == s'.gScore.Keys - {start};
    }
  }

  lemma RelaxKeepsCovered(m: MapData, goal: Tile, s: Search, current: Node, k: nat, t: Tile, j: nat)
    requires k < 4 && j < 4 && t in s.gScore && current.tile in s.gScore
    requires Covered(m, s, t, j)
    requires Neighbor(current.tile, k) == t ==> Relax(m, goal, s, current, k) == s
    ensures Covered(m, Relax(m, goal, s, current, k), t, j)
  {
  }

  lemma RelaxKeeps(m: MapData, start: Tile, goal: Tile, s: Search, current: Node, k: nat)
    requires k < 4 && Expanding(m, start, goal, s, current, k)
    ensures Expanding(m, start, goal, Relax(m, goal, s, current, k), current, k + 1)
  {
    RelaxKeepsTree(m, start, goal, s, current, k);
    var s' := Relax(m, goal, s, current, k);
    var n := Neighbor(current.tile, k);
    assert n != current.tile;
    forall t | t in s'.gScore && t != current.tile
      ensures InOpen(goal, s', t) || Settled(m, goal, s', t)
    {
      if (t != n || s' == s) && !InOpen(goal, s, t) {
        assert Settled(m, goal, s, t);
        forall j: nat | j < 4
          ensures Covered(m, s', t, j)
        {
          RelaxKeepsCovered(m, goal, s, current, k, t, j);
        }
      }
    }
    forall j: nat | j < k + 1
      ensures Covered(m, s', current.tile, j)
    {
      if j < k {
        RelaxKeepsCovered(m, goal, s, current, k, current.tile, j);
      }
    }
  }

  // ---------- The measure ----------

  ghost function Sum(g: map<Tile, nat>): nat
    decreases |g|
  {
    if g == map[] then 0
    else
      var t :| t in g;
      assert |g - {t}| < |g| by { assert (g - {t}).Keys == g.Keys - {t}; }
      g[t] + Sum(g - {t})
  }

  lemma {:induction false} SumSplit(g: map<Tile, nat>, t: Tile)
    requires t in g
    ensures Sum(g) == g[t] + Sum(g - {t})
    decreases |g|
  {
    var u :| u in g && Sum(g) == g[u] + Sum(g - {u});
    if u != t {
      assert |g - {u}| < |g| by { assert (g - {u}).Keys == g.Keys - {u}; }
      assert |g - {t}| < |g| by { assert (g - {t}).Keys == g.Keys - {t}; }
      SumSplit(g - {u}, t);
      SumSplit(g - {t}, u);
      assert g - {u} - {t} == g - {t} - {u};
    }
  }

  ghost function Unseen(m: MapData, s: Search): nat {
    |PassableTiles(m) - s.gScore.Keys|
  }

  /** Relaxing discovers a tile, or lowers the total of the step counts, or changes nothing. */
  ghost predicate NoLarger(m: MapData, s: Search, s': Search) {
    || s' == s
    || Unseen(m, s') < Unseen(m, s)
    || (Unseen(m, s') == Unseen(m, s) && Sum(s'.gScore) < Sum(s.gScore))
  }

  lemma RelaxShrinks(m: MapData, goal: Tile, s: Search, current: Node, k: nat)
    requires k < 4
    ensures NoLarger(m, s, Relax(m, goal, s, current, k))
  {
    var s' := Relax(m, goal, s, current, k);
    var n := Neighbor(current.tile, k);
    if s' != s {
      assert n in PassableTiles(m) by { assert n == Tile(n.x, n.y); }
      if n in s.gScore {
        assert s'.gScore.Keys == s.gScore.Keys;
        SumSplit(s.gScore, n);
        SumSplit(s'.gScore, n);
        assert s.gScore - {n} == s'.gScore - {n};
      } else {
        var before := PassableTiles(m) - s.gScore.Keys;
        var after := PassableTiles(m) - s'.gScore.Keys;
        assert after == before - {n};
      }
    }
  }

  lemma {:induction false} ExpandKeeps(m: MapData, start: Tile, goal: Tile, s: Search, current: Node, k: nat)
    requires k <= 4 && Expanding(m, start, goal, s, current, 0)
    ensures Expanding(m, start, goal, Expand(m, goal, s, current, k), current, k)
    ensures NoLarger(m, s, Expand(m, goal, s, current, k))
  {
    if k > 0 {
      ExpandKeeps(m, start, goal, s, current, k - 1);
      var s' := Expand(m, goal, s, current, k - 1);
      RelaxKeeps(m, start, goal, s', current, k - 1);
      RelaxShrinks(m, goal, s', current, k - 1);
    }
  }

  // ---------- One round and the whole search ----------

  function Popped(s: Search, current: Node): Search {
    s.(open := s.open - multiset{current})
  }

  predicate Stale(s: Search, current: Node) {
    current.tile !in s.gScore || current.g != s.gScore[current.tile]
  }

  /** A round that does not stop: a stale node is dropped, another one is expanded. */
  function Round(m: MapData, goal: Tile, s: Search, current: Node): Search {
    if Stale(s, current) then Popped(s, current) else Expand(m, goal, Popped(s, current), current, 4)
  }

  ghost predicate Smaller(m: MapData, s': Search, s: Search) {
    || Unseen(m, s') < Unseen(m, s)
    || (Unseen(m, s') == Unseen(m, s)
        && (Sum(s'.gScore) < Sum(s.gScore) || (Sum(s'.gScore) == Sum(s.gScore) && |s'.open| < |s.open|)))
  }

  lemma RoundKeeps(m: MapData, start: Tile, goal: Tile, s: Search, current: Node)
    requires Inv(m, start, goal, s) && current in s.open
    requires Stale(s, current) || current.tile != goal
    ensures Inv(m, start, goal, Round(m, goal, s, current))
    ensures Smaller(m, Round(m, goal, s, current), s)
  {
    var s1 := Popped(s, current);
    assert |s1.open| < |s.open|;
    assert Unseen(m, s1) == Unseen(m, s);
    forall t | t in s1.gScore && (Stale(s, current) || t != current.tile)
      ensures InOpen(goal, s1, t) || Settled(m, goal, s1, t)
    {
      if InOpen(goal, s, t) {
        assert NodeFor(goal, t, s.gScore[t]) != current;
      } else {
        assert Settled(m, goal, s, t);
        assert forall k: nat :: k < 4 ==> Covered(m, s, t, k) ==> Covered(m, s1, t, k);
      }
    }
    if !Stale(s, current) {
      ExpandKeeps(m, start, goal, s1, current, 4);
    }
  }

  /** Follows the back pointers from `step` until the one that leads to `start`. */
  ghost function FirstStep(m: MapData, start: Tile, s: Search, step: Tile): Option<Tile>
    requires Tree(m, start, s) && step in s.gScore
    decreases s.gScore[step]
  {
    if step !in s.cameFrom then None
    else if s.cameFrom[step] == start then Some(step)
    else FirstStep(m, start, s, s.cameFrom[step])
  }

  /** The rest of the search from a given state. */
  ghost function Run(m: MapData, start: Tile, goal: Tile, s: Search): Option<Tile>
    requires Inv(m, start, goal, s)
    decreases Unseen(m, s), Sum(s.gScore), |s.open|
  {
    if s.open == multiset{} then None
    else
      var current := Least(s.open);
      if !Stale(s, current) && current.tile == goal then FirstStep(m, start, s, goal)
      else
        RoundKeeps(m, start, goal, s, current);
        Run(m, start, goal, Round(m, goal, s, current))
  }

  /** The search's answer: the tile to step onto next, if there is a way. */
  ghost function NextTile(m: MapData, start: Tile, goal: Tile): Option<Tile> {
    InitialInv(m, start, goal);
    Run(m, start, goal, Initial(start, goal))
  }

  // ---------- Why the answer is right ----------

  /** The back pointers give a walk from the tile they lead to, no longer than the step count says. */
  lemma {:induction false} FirstStepWalks(m: MapData, start: Tile, s: Search, step: Tile, goal: Tile, n: nat, q: seq<Tile>)
    requires Tree(m, start, s) && step in s.gScore && step != start
    requires WalkOf(m, step, goal, n, q)
    ensures FirstStep(m, start, s, step).Some?
    ensures exists k: nat, p :: 0 < k <= s.gScore[step] + n && WalkOf(m, start, goal, k, p)
                                && p[1] == FirstStep(m, start, s, step).value
    decreases s.gScore[step]
  {
    assert step in s.cameFrom;
    var parent := s.cameFrom[step];
    var p := [parent] + q;
    assert WalkOf(m, parent, goal, n + 1, p);
    if parent != start {
      FirstStepWalks(m, start, s, parent, goal, n + 1, p);
    }
  }

  /** Along any walk either some known tile is still open early enough, or the end is reached in time. */
  lemma {:induction false} WalkFrontier(m: MapData, start: Tile, goal: Tile, s: Search, p: seq<Tile>, n: nat, i: nat)
    requires Inv(m, start, goal, s) && WalkOf(m, start, goal, n, p)
    requires i <= n && p[i] in s.gScore && s.gScore[p[i]] <= i
    ensures exists j: nat :: i <= j <= n && p[j] in s.gScore && s.gScore[p[j]] <= j && InOpen(goal, s, p[j])
    decreases n - i
  {
    if !InOpen(goal, s, p[i]) {
      assert Settled(m, goal, s, p[i]);
      assert Adjacent(p[i + 1 - 1], p[i + 1]) && Passable(m, p[i + 1]);
      NeighborsAreAdjacent(p[i], p[i + 1]);
      var k: nat :| k < 4 && Neighbor(p[i], k) == p[i + 1];
      assert Covered(m, s, p[i], k);
      WalkFrontier(m, start, goal, s, p, n, i + 1);
    }
  }

  /** While there is a walk to the goal, the least open node promises a total no longer than the walk. */
  lemma LeastIsOptimistic(m: MapData, start: Tile, goal: Tile, s: Search, n: nat)
    requires Inv(m, start, goal, s) && WalkOfLength(m, start, goal, n)
    ensures s.open != multiset{} && Least(s.open).f <= n
  {
    var p :| WalkOf(m, start, goal, n, p);
    WalkFrontier(m, start, goal, s, p, n, 0);
    var j: nat :| j <= n && p[j] in s.gScore && s.gScore[p[j]] <= j && InOpen(goal, s, p[j]);
    var o := NodeFor(goal, p[j], s.gScore[p[j]]);
    assert o in s.open;
    ManhattanAdmissible(m, p, j);
    assert !Less(o, Least(s.open));
  }

  lemma {:induction false} RunCorrect(m: MapData, start: Tile, goal: Tile, s: Search)
    requires start != goal && Inv(m, start, goal, s)
    ensures Run(m, start, goal, s).None? ==> !Reachable(m, start, goal)
    ensures Run(m, start, goal, s).Some? ==> FirstOfShortest(m, start, goal, Run(m, start, goal, s).value)
    decreases Unseen(m, s), Sum(s.gScore), |s.open|
  {
    if s.open == multiset{} {
      forall n: nat | WalkOfLength(m, start, goal, n)
        ensures false
      {
        LeastIsOptimistic(m, start, goal, s, n);
      }
    } else {
      var current := Least(s.open);
      if !Stale(s, current) && current.tile == goal {
        assert WalkOf(m, goal, goal, 0, [goal]);
        FirstStepWalks(m, start, s, goal, goal, 0, [goal]);
        var k: nat, p :| 0 < k <= s.gScore[goal] && WalkOf(m, start, goal, k, p)
                         && p[1] == FirstStep(m, start, s, goal).value;
        assert WalkOfLength(m, start, goal, k);
        forall n: nat | WalkOfLength(m, start, goal, n)
          ensures k <= n
        {
          LeastIsOptimistic(m, start, goal, s, n);
        }
        assert IsDistance(m, start, goal, k);
      } else {
        RoundKeeps(m, start, goal, s, current);
        RunCorrect(m, start, goal, Round(m, goal, s, current));
      }
    }
  }

  /**
   On every map the search fails exactly when the goal is the start or cannot be reached, and otherwise
   answers with the first tile of a shortest walk.
   */
  lemma NextTileCorrect(m: MapData, start: Tile, goal: Tile)
    ensures NextTile(m, start, goal).None? <==> start == goal || !Reachable(m, start, goal)
    ensures NextTile(m, start, goal).Some? ==> FirstOfShortest(m, start, goal, NextTile(m, start, goal).value)
  {
    InitialInv(m, start, goal);
    var s := Initial(start, goal);
    if start == goal {
      assert Least(s.open) == NodeFor(goal, start, 0);
    } else {
      RunCorrect(m, start, goal, s);
      if NextTile(m, start, goal).Some? {
        FirstOfShortestApproaches(m, start, goal, NextTile(m, start, goal).value);
      }
    }
  }
}

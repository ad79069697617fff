/** The search loop over the heap and the two maps, proved to compute PathSearch.NextTile. */
module PathSearchMethod {
  import opened Wrappers
  import opened Grid
  import opened PathSearch
  import H = OpenHeap

  /** Queued nodes are determined by their tile and step count, so there is only one least node. */
  lemma LeastIsUnique(goal: Tile, s: Search, a: Node, b: Node)
    requires Queued(goal, s) && IsLeast(s.open, a) && IsLeast(s.open, b)
    ensures a == b
  {
    assert !Less(a, b) && !Less(b, a);
    assert a.tile == b.tile;
  }

  method FirstStepTile(m: MapData, start: Tile, goal: Tile, cameFrom: map<Tile, Tile>, ghost s: Search)
    returns (r: Option<Tile>)
    requires Tree(m, start, s) && goal in s.gScore && s.cameFrom == cameFrom
    ensures r == FirstStep(m, start, s, goal)
  {
    var step := goal;
    while true
      invariant step in s.gScore && FirstStep(m, start, s, step) == FirstStep(m, start, s, goal)
      decreases s.gScore[step]
    {
      if step !in cameFrom {
        return None;
      }
      var parent := cameFrom[step];
      if parent == start {
        return Some(step);
      }
      step := parent;
    }
  }

  /** Tries the four neighbours of the node just taken. */
  method ExpandNode(m: MapData, goal: Tile, open: H.OpenHeap, current: Node, gScore0: map<Tile, nat>, cameFrom0: map<Tile, Tile>,
                    ghost s: Search)
    returns (gScore: map<Tile, nat>, cameFrom: map<Tile, Tile>)
    requires open.Valid() && s == Search(multiset(open.nodes), gScore0, cameFrom0)
    modifies open
    ensures open.Valid() && Search(multiset(open.nodes), gScore, cameFrom) == Expand(m, goal, s, current, 4)
  {
    hide Passable, Neighbor, NodeFor, Less;
    gScore, cameFrom := gScore0, cameFrom0;
    for k := 0 to 4
      invariant open.Valid()
      invariant Search(multiset(open.nodes), gScore, cameFrom) == Expand(m, goal, s, current, k)
    {
      var neighbor := Neighbor(current.tile, k);
      if !Passable(m, neighbor) {
        continue;
      }
      var tentative := current.g + 1;
      if neighbor in gScore && tentative >= gScore[neighbor] {
        continue;
      }
      gScore := gScore[neighbor := tentative];
      cameFrom := cameFrom[neighbor := current.tile];
      open.Push(NodeFor(goal, neighbor, tentative));
    }
  }

  method FirstBotPathStep(m: MapData, start: Tile, goal: Tile) returns (r: Option<Tile>)
    ensures r == NextTile(m, start, goal)
    ensures r.None? <==> start == goal || !Reachable(m, start, goal)
    ensures r.Some? ==> FirstOfShortest(m, start, goal, r.value)
  {
    NextTileCorrect(m, start, goal);
    var open := new H.OpenHeap(NodeFor(goal, start, 0));
    var gScore: map<Tile, nat> := map[start := 0];
    var cameFrom: map<Tile, Tile> := map[];
    InitialInv(m, start, goal);
    ghost var s := Initial(start, goal);

    while |open.nodes| > 0
      invariant fresh(open) && open.Valid()
      invariant s == Search(multiset(open.nodes), gScore, cameFrom)
      invariant Inv(m, start, goal, s) && Run(m, start, goal, s) == NextTile(m, start, goal)
      decreases Unseen(m, s), Sum(s.gScore), |s.open|
    {
      ghost var before := s;
      var current := open.Pop();
      LeastIsUnique(goal, before, current, Least(before.open));
      if current.tile !in gScore || current.g != gScore[current.tile] {
        RoundKeeps(m, start, goal, before, current);
        s := Popped(before, current);
        continue;
      }
      if current.tile == goal {
        r := FirstStepTile(m, start, goal, cameFrom, before);
        return;
      }
      RoundKeeps(m, start, goal, before, current);
      gScore, cameFrom := ExpandNode(m, goal, open, current, gScore, cameFrom, Popped(before, current));
      s := Round(m, goal, before, current);
    }
    r := None;
  }
}

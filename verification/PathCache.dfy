/** The one-entry path cache of a bot's controller, on one map. */
module PathCache {
  import opened Wrappers
  import opened Grid
  import opened World
  import opened PathSearch
  import opened PathSearchMethod
  import opened Steering

  class BotControllerState {
    var cachedPathStart: Tile
    var cachedPathGoal: Tile
    var cachedPathNext: Tile
    var hasCachedPath: bool

    /** A cached step is the one the search would find on this map. */
    ghost predicate Valid(m: MapData)
      reads this
    {
      hasCachedPath ==> NextTile(m, cachedPathStart, cachedPathGoal) == Some(cachedPathNext)
    }

    constructor ()
      ensures forall m :: Valid(m)
    {
      cachedPathStart, cachedPathGoal, cachedPathNext := Tile(0, 0), Tile(0, 0), Tile(0, 0);
      hasCachedPath := false;
    }

    method Clear()
      modifies this
      ensures !hasCachedPath
    {
      cachedPathStart := Tile(0, 0);
      cachedPathGoal := Tile(0, 0);
      cachedPathNext := Tile(0, 0);
      hasCachedPath := false;
    }

    /** Whatever the cache holds, the answer is the uncached one, and the cache stays truthful. */
    method CachedBotPathDirection(m: MapData, p: Vector2, goal: Vector2, maxMovement: real, sqrt: real -> real)
      returns (r: Option<Vector2>)
      requires Valid(m)
      modifies this
      ensures Valid(m) && r == NextBotPathDirection(m, p, goal, maxMovement, sqrt)
      ensures hasCachedPath <==> r.Some? && WorldToBotTile(m, p) != WorldToBotTile(m, goal)
      ensures hasCachedPath ==>
                Some(cachedPathStart) == WorldToBotTile(m, p) && Some(cachedPathGoal) == WorldToBotTile(m, goal)
    {
      var start := WorldToBotTile(m, p);
      var end := WorldToBotTile(m, goal);
      var geometry := Geometry(m);
      if start.None? || end.None? || geometry.None? || !Passable(m, start.value) || !Passable(m, end.value) {
        Clear();
        return None;
      }
      if start != end && hasCachedPath && cachedPathStart == start.value && cachedPathGoal == end.value {
        return Some(PathStepDirection(geometry.value, p, start.value, cachedPathNext, maxMovement));
      }
      if start == end {
        Clear();
        return Some(UnitDirection(p, goal, sqrt));
      }
      var next := FirstBotPathStep(m, start.value, end.value);
      if next.None? {
        Clear();
        return None;
      }
      cachedPathStart := start.value;
      cachedPathGoal := end.value;
      cachedPathNext := next.value;
      hasCachedPath := true;
      return Some(PathStepDirection(geometry.value, p, start.value, next.value, maxMovement));
    }
  }
}

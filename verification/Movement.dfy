/** The server's movement phase: the X sweep, the Y sweep and the pairwise blocking of each. */
module Movement {
  import opened Wrappers
  import opened Grid
  import opened World
  import MapCollision

  const EPS: real := 0.000000000001

  /** The fields of a player that movement reads and writes. */
  datatype Mover = Mover(pos: Vector2, radius: real, dead: bool)

  datatype PreparedInput = PreparedInput(playerIndex: int, movement: Vector2)

  datatype Candidate = Candidate(origin: Vector2, target: Vector2, radius: real)

  datatype Axis = AxisX | AxisY

  // ---------- Two candidates on one axis ----------

  function Along(v: Vector2, axis: Axis): real {
    if axis == AxisX then v.x else v.y
  }

  /** The coordinate that stays fixed during the sweep: old y while sweeping x, new x while sweeping y. */
  function Across(c: Candidate, axis: Axis): real {
    if axis == AxisX then c.origin.y else c.target.x
  }

  function RadiusSum(a: Candidate, b: Candidate): real {
    Max(a.radius, 0.0) + Max(b.radius, 0.0)
  }

  function RelativeStart(a: Candidate, b: Candidate, axis: Axis): real {
    Along(a.origin, axis) - Along(b.origin, axis)
  }

  function RelativeDelta(a: Candidate, b: Candidate, axis: Axis): real {
    (Along(a.target, axis) - Along(a.origin, axis)) - (Along(b.target, axis) - Along(b.origin, axis))
  }

  function MinimumDistance(start: real, delta: real): real {
    var ends := Min(AbsReal(start), AbsReal(start + delta));
    if delta == 0.0 then ends
    else Min(ends, AbsReal(start + delta * Clamp(-start / delta, 0.0, 1.0)))
  }

  function ContactSquared(a: Candidate, b: Candidate, axis: Axis): real {
    var other := AbsReal(Across(a, axis) - Across(b, axis));
    RadiusSum(a, b) * RadiusSum(a, b) - other * other
  }

  /** The last test of a pair that overlaps across the axis: it may only pull apart or keep its distance. */
  predicate Touches(start: real, delta: real, contact: real) {
    if AbsReal(start) <= contact + EPS then
      var separatesStrictly := AbsReal(start + delta) > AbsReal(start) + EPS;
      var neverDeepensOverlap := MinimumDistance(start, delta) >= AbsReal(start) - EPS;
      !separatesStrictly || !neverDeepensOverlap
    else MinimumDistance(start, delta) <= contact + EPS
  }

  predicate AxisMovementCollides(a: Candidate, b: Candidate, axis: Axis, sqrt: real -> real) {
    && AbsReal(Across(a, axis) - Across(b, axis)) <= RadiusSum(a, b) + EPS
    && ContactSquared(a, b, axis) >= 0.0
    && Touches(RelativeStart(a, b, axis), RelativeDelta(a, b, axis), sqrt(ContactSquared(a, b, axis)))
  }

  // ---------- The phase as a function ----------

  function StartCandidates(players: seq<Mover>): seq<Candidate> {
    seq(|players|, i requires 0 <= i < |players| => Candidate(players[i].pos, players[i].pos, players[i].radius))
  }

  ghost function TryX(m: MapData, c: Candidate, movement: Vector2): Candidate {
    var next := Vector2(c.origin.x + movement.x, c.origin.y);
    if Collides(m, next, c.radius, BlocksPlayer) then c else c.(target := Vector2(next.x, c.target.y))
  }

  ghost function TryY(m: MapData, c: Candidate, movement: Vector2): Candidate {
    var next := Vector2(c.target.x, c.origin.y + movement.y);
    if Collides(m, next, c.radius, BlocksPlayer) then c else c.(target := Vector2(c.target.x, next.y))
  }

  /** Every input is tried on the X axis, in order; a later input of the same player wins. */
  ghost function SweepX(m: MapData, cs: seq<Candidate>, inputs: seq<PreparedInput>): (r: seq<Candidate>)
    ensures |r| == |cs|
  {
    if inputs == [] then cs
    else
      var before := SweepX(m, cs, inputs[..|inputs| - 1]);
      var input := inputs[|inputs| - 1];
      if 0 <= input.playerIndex < |cs|
      then before[input.playerIndex := TryX(m, before[input.playerIndex], input.movement)]
      else before
  }

  function InputFor(inputs: seq<PreparedInput>, index: int): Option<PreparedInput> {
    if inputs == [] then None
    else if inputs[0].playerIndex == index then Some(inputs[0])
    else InputFor(inputs[1..], index)
  }

  ghost function SweepY(m: MapData, cs: seq<Candidate>, inputs: seq<PreparedInput>): (r: seq<Candidate>)
    ensures |r| == |cs|
  {
    seq(|cs|, i requires 0 <= i < |cs| =>
      var input := InputFor(inputs, i);
      if input.None? then cs[i] else TryY(m, cs[i], input.value.movement))
  }

  predicate PairCollides(players: seq<Mover>, cs: seq<Candidate>, axis: Axis, sqrt: real -> real, left: int, right: int)
    requires |players| == |cs| && 0 <= left < |cs| && 0 <= right < |cs|
  {
    !players[left].dead && !players[right].dead && AxisMovementCollides(cs[left], cs[right], axis, sqrt)
  }

  /** `i` collides with one of the first `bound` candidates, coming after it. */
  ghost predicate HitBefore(players: seq<Mover>, cs: seq<Candidate>, axis: Axis, sqrt: real -> real, i: int, bound: int)
    requires |players| == |cs| && 0 <= i < |cs|
  {
    exists l :: 0 <= l < i && l < bound && PairCollides(players, cs, axis, sqrt, l, i)
  }

  /** `i` collides with a later one of the first `bound` candidates. */
  ghost predicate HitAfter(players: seq<Mover>, cs: seq<Candidate>, axis: Axis, sqrt: real -> real, i: int, bound: int)
    requires |players| == |cs| && 0 <= i < |cs| && bound <= |cs|
  {
    exists r :: i < r < bound && PairCollides(players, cs, axis, sqrt, i, r)
  }

  ghost predicate Blocked(players: seq<Mover>, cs: seq<Candidate>, axis: Axis, sqrt: real -> real, i: int)
    requires |players| == |cs| && 0 <= i < |cs|
  {
    HitBefore(players, cs, axis, sqrt, i, |cs|) || HitAfter(players, cs, axis, sqrt, i, |cs|)
  }

  function Reverted(c: Candidate, axis: Axis): Candidate {
    if axis == AxisX then c.(target := Vector2(c.origin.x, c.target.y))
    else c.(target := Vector2(c.target.x, c.origin.y))
  }

  ghost function Resolve(players: seq<Mover>, cs: seq<Candidate>, axis: Axis, sqrt: real -> real): (r: seq<Candidate>)
    requires |players| == |cs|
    ensures |r| == |cs|
  {
    seq(|cs|, i requires 0 <= i < |cs| => if Blocked(players, cs, axis, sqrt, i) then Reverted(cs[i], axis) else cs[i])
  }

  ghost function AfterX(m: MapData, players: seq<Mover>, inputs: seq<PreparedInput>, sqrt: real -> real): (r: seq<Candidate>)
    ensures |r| == |players|
  {
    Resolve(players, SweepX(m, StartCandidates(players), inputs), AxisX, sqrt)
  }

  ghost function AfterY(m: MapData, players: seq<Mover>, inputs: seq<PreparedInput>, sqrt: real -> real): (r: seq<Candidate>)
    ensures |r| == |players|
  {
    Resolve(players, SweepY(m, AfterX(m, players, inputs, sqrt), inputs), AxisY, sqrt)
  }

  ghost function Moved(m: MapData, players: seq<Mover>, inputs: seq<PreparedInput>, sqrt: real -> real): (r: seq<Mover>)
    ensures |r| == |players|
  {
    var cs := AfterY(m, players, inputs, sqrt);
    seq(|players|, i requires 0 <= i < |players| => players[i].(pos := cs[i].target))
  }

  // ---------- The phase as the source runs it ----------

  /** Marks candidate `left` and every later one it collides with. */
  method MarkCollisions(players: array<Mover>, cs: array<Candidate>, axis: Axis, sqrt: real -> real,
                        left: int, blocked: array<bool>)
    requires players.Length == cs.Length == blocked.Length && 0 <= left < cs.Length
    modifies blocked
    ensures forall k :: 0 <= k < cs.Length ==> (blocked[k] <==>
              || old(blocked[k])
              || (left < k && PairCollides(players[..], cs[..], axis, sqrt, left, k))
              || (k == left && HitAfter(players[..], cs[..], axis, sqrt, left, cs.Length)))
  {
    hide AxisMovementCollides;
    if players[left].dead {
      return;
    }
    for right := left + 1 to cs.Length
      invariant forall k :: 0 <= k < cs.Length ==> (blocked[k] <==>
                  || old(blocked[k])
                  || (left < k < right && PairCollides(players[..], cs[..], axis, sqrt, left, k))
                  || (k == left && HitAfter(players[..], cs[..], axis, sqrt, left, right)))
    {
      if players[right].dead {
        continue;
      }
      if AxisMovementCollides(cs[left], cs[right], axis, sqrt) {
        assert PairCollides(players[..], cs[..], axis, sqrt, left, right);
        blocked[left] := true;
        blocked[right] := true;
      }
    }
  }

  method ResolvePlayerMovementAxis(players: array<Mover>, cs: array<Candidate>, axis: Axis, sqrt: real -> real)
    requires players.Length == cs.Length
    modifies cs
    ensures cs[..] == Resolve(players[..], old(cs[..]), axis, sqrt)
  {
    hide AxisMovementCollides;
    var n := cs.Length;
    ghost var ps := players[..];
    ghost var was := cs[..];
    var blocked := new bool[n](_ => false);
    for left := 0 to n
      invariant players[..] == ps && cs[..] == was
      invariant forall k :: 0 <= k < n ==> (blocked[k] <==>
                  HitBefore(ps, was, axis, sqrt, k, left) || (k < left && HitAfter(ps, was, axis, sqrt, k, n)))
    {
      MarkCollisions(players, cs, axis, sqrt, left, blocked);
      forall k | 0 <= k < n
        ensures HitBefore(ps, was, axis, sqrt, k, left + 1)
                <==> HitBefore(ps, was, axis, sqrt, k, left) || (left < k && PairCollides(ps, was, axis, sqrt, left, k))
      {
      }
    }
    assert forall k :: 0 <= k < n ==> (HitBefore(ps, was, axis, sqrt, k, n) <==> HitBefore(ps, was, axis, sqrt, k, |was|));
    for index := 0 to n
      invariant players[..] == ps
      invariant forall k :: 0 <= k < n ==> (blocked[k] <==> Blocked(ps, was, axis, sqrt, k))
      invariant forall k :: 0 <= k < n ==>
                  cs[k] == if k < index && Blocked(ps, was, axis, sqrt, k) then Reverted(was[k], axis) else was[k]
    {
      if !blocked[index] {
        continue;
      }
      cs[index] := Reverted(cs[index], axis);
    }
  }

  method PreparedInputForPlayer(inputs: seq<PreparedInput>, index: int) returns (r: Option<PreparedInput>)
    ensures r == InputFor(inputs, index)
  {
    for k := 0 to |inputs|
      invariant InputFor(inputs, index) == InputFor(inputs[k..], index)
    {
      if inputs[k].playerIndex == index {
        return Some(inputs[k]);
      }
    }
    return None;
  }

  method ApplyPlayerMovement(m: MapData, players: array<Mover>, inputs: seq<PreparedInput>, sqrt: real -> real)
    requires m.tileSize > 0.0
    modifies players
    ensures players[..] == Moved(m, old(players[..]), inputs, sqrt)
  {
    hide AxisMovementCollides, Collides;
    var n := players.Length;
    ghost var ps := players[..];
    var cs := new Candidate[n](i requires 0 <= i < n reads players =>
      Candidate(players[i].pos, players[i].pos, players[i].radius));
    assert cs[..] == StartCandidates(ps);
    for k := 0 to |inputs|
      invariant players[..] == ps
      invariant cs[..] == SweepX(m, StartCandidates(ps), inputs[..k])
    {
      var input := inputs[k];
      assert inputs[..k + 1][..k] == inputs[..k];
      if input.playerIndex < 0 || input.playerIndex >= n {
        continue;
      }
      var c := cs[input.playerIndex];
      var nextX := Vector2(c.origin.x + input.movement.x, c.origin.y);
      var hit := MapCollision.CollidesWithMap(m, nextX, c.radius, BlocksPlayer);
      if !hit {
        cs[input.playerIndex] := c.(target := Vector2(nextX.x, c.target.y));
      }
    }
    assert inputs[..|inputs|] == inputs;
    ResolvePlayerMovementAxis(players, cs, AxisX, sqrt);
    ghost var afterX := AfterX(m, ps, inputs, sqrt);
    assert cs[..] == afterX;
    ghost var afterY := SweepY(m, afterX, inputs);
    for index := 0 to n
      invariant players[..] == ps
      invariant forall k :: 0 <= k < n ==> cs[k] == if k < index then afterY[k] else afterX[k]
    {
      var input := PreparedInputForPlayer(inputs, index);
      if input.None? {
        continue;
      }
      var c := cs[index];
      var nextY := Vector2(c.target.x, c.origin.y + input.value.movement.y);
      var hit := MapCollision.CollidesWithMap(m, nextY, c.radius, BlocksPlayer);
      if !hit {
        cs[index] := c.(target := Vector2(c.target.x, nextY.y));
      }
    }
    assert cs[..] == afterY;
    ResolvePlayerMovementAxis(players, cs, AxisY, sqrt);
    for index := 0 to n
      invariant cs[..] == AfterY(m, ps, inputs, sqrt)
      invariant forall k :: 0 <= k < n ==> players[k] == if k < index then ps[k].(pos := cs[k].target) else ps[k]
    {
      players[index] := players[index].(pos := cs[index].target);
    }
  }
}

/** What the movement phase keeps: players stay clear of walls, and two live players stay apart. */
module MovementSafety {
  import opened Wrappers
  import opened Grid
  import opened World
  import opened Movement

  // ---------- Walls, for any number of players ----------

  ghost predicate Clear(m: MapData, p: Vector2, radius: real) {
    !Collides(m, p, radius, BlocksPlayer)
  }

  /** Both where the candidate is heading and its fallback for the Y axis are clear. */
  ghost predicate SafeCandidate(m: MapData, player: Mover, c: Candidate) {
    && c.origin == player.pos && c.radius == player.radius
    && Clear(m, c.origin, c.radius) && Clear(m, c.target, c.radius)
    && Clear(m, Vector2(c.target.x, c.origin.y), c.radius)
  }

  lemma {:induction false} SweepXKeepsSafe(m: MapData, players: seq<Mover>, inputs: seq<PreparedInput>, i: int)
    requires 0 <= i < |players| && Clear(m, players[i].pos, players[i].radius)
    ensures var c := SweepX(m, StartCandidates(players), inputs)[i];
            SafeCandidate(m, players[i], c) && c.target.y == c.origin.y
  {
    hide Collides;
    if inputs != [] {
      SweepXKeepsSafe(m, players, inputs[..|inputs| - 1], i);
    }
  }

  /** A player that starts clear of the walls ends clear of them, whatever the others do. */
  lemma WallClearAfterMovement(m: MapData, players: seq<Mover>, inputs: seq<PreparedInput>, sqrt: real -> real, i: int)
    requires 0 <= i < |players| && Clear(m, players[i].pos, players[i].radius)
    ensures Clear(m, Moved(m, players, inputs, sqrt)[i].pos, players[i].radius)
  {
    hide Collides, AxisMovementCollides;
    SweepXKeepsSafe(m, players, inputs, i);
    var x := AfterX(m, players, inputs, sqrt)[i];
    assert SafeCandidate(m, players[i], x) && x.target.y == x.origin.y;
    var y := SweepY(m, AfterX(m, players, inputs, sqrt), inputs)[i];
    assert SafeCandidate(m, players[i], y);
  }

  // ---------- One pair on one axis ----------

  /** The offset of `a` from `b` along the axis at instant `t` of the sweep. */
  function OffsetAt(a: Candidate, b: Candidate, axis: Axis, t: real): real {
    RelativeStart(a, b, axis) + t * RelativeDelta(a, b, axis)
  }

  function AcrossOffset(a: Candidate, b: Candidate, axis: Axis): real {
    Across(a, axis) - Across(b, axis)
  }

  /** The interiors of the two circles are disjoint at instant `t` of the sweep. */
  predicate ApartAt(a: Candidate, b: Candidate, axis: Axis, t: real) {
    var along := OffsetAt(a, b, axis, t);
    var across := AcrossOffset(a, b, axis);
    along * along + across * across >= RadiusSum(a, b) * RadiusSum(a, b)
  }

  ghost predicate SweptApart(a: Candidate, b: Candidate, axis: Axis) {
    forall t: real :: 0.0 <= t <= 1.0 ==> ApartAt(a, b, axis, t)
  }

  predicate Crosses(start: real, delta: real) {
    start < 0.0 < start + delta || start + delta < 0.0 < start
  }

  /**
   The pair starts level to within the tolerance, overlaps across the axis, and one passes through the
   other by more than the tolerance.
   */
  predicate GrazingPass(a: Candidate, b: Candidate, axis: Axis) {
    var start := RelativeStart(a, b, axis);
    var delta := RelativeDelta(a, b, axis);
    && AbsReal(AcrossOffset(a, b, axis)) < RadiusSum(a, b)
    && AbsReal(start) <= EPS
    && Crosses(start, delta)
    && AbsReal(start + delta) > AbsReal(start) + EPS
  }

  lemma SquareOrder(a: real, b: real)
    requires a >= 0.0 && b >= 0.0
    ensures a < b <==> a * a < b * b
    ensures a <= b <==> a * a <= b * b
  {
    if a < b {
      SquareLess(a, b);
    } else if b < a {
      SquareLess(b, a);
    }
  }

  /** Scaling by t in [0, 1] stays between zero and the whole. */
  lemma Fraction(t: real, delta: real)
    requires 0.0 <= t <= 1.0
    ensures delta >= 0.0 ==> 0.0 <= t * delta <= delta
    ensures delta <= 0.0 ==> delta <= t * delta <= 0.0
  {
    assert (1.0 - t) * delta == delta - t * delta;
  }

  lemma SignOfProduct(q: real, delta: real)
    requires q < 0.0 && delta != 0.0
    ensures delta > 0.0 ==> q * delta < 0.0
    ensures delta < 0.0 ==> q * delta > 0.0
  {
    if delta > 0.0 {
      MulPositive(-q, delta);
    } else {
      MulPositive(-q, -delta);
    }
  }

  /** The instant at which an offset that changes sign is zero. */
  lemma PassingInstant(start: real, delta: real) returns (t: real)
    requires Crosses(start, delta)
    ensures 0.0 <= t <= 1.0 && start + t * delta == 0.0 && t == -start / delta
  {
    t := -start / delta;
    assert t * delta == -start;
    if t < 0.0 {
      SignOfProduct(t, delta);
    } else if t > 1.0 {
      if delta > 0.0 {
        MulPositive(t - 1.0, delta);
      } else {
        MulPositive(t - 1.0, -delta);
      }
    }
  }

  /** The computed minimum is a lower bound of the offset's magnitude over the whole sweep. */
  lemma MinimumIsLowerBound(start: real, delta: real, t: real)
    requires 0.0 <= t <= 1.0
    ensures MinimumDistance(start, delta) <= AbsReal(start + t * delta)
  {
    if Crosses(start, delta) {
      var q := PassingInstant(start, delta);
      assert delta * q == q * delta;
    } else {
      Fraction(t, delta);
    }
  }

  /** An offset no smaller than the contact distance is enough to be apart. */
  lemma ApartFromContact(a: Candidate, b: Candidate, axis: Axis, t: real, contact: real)
    requires contact >= 0.0 && contact * contact == ContactSquared(a, b, axis)
    ensures ApartAt(a, b, axis, t) <==> AbsReal(OffsetAt(a, b, axis, t)) >= contact
  {
    SquareOrder(AbsReal(OffsetAt(a, b, axis, t)), contact);
    var along := OffsetAt(a, b, axis, t);
    assert AbsReal(along) * AbsReal(along) == along * along;
    var across := AcrossOffset(a, b, axis);
    assert AbsReal(across) * AbsReal(across) == across * across;
  }

  lemma WideApart(a: Candidate, b: Candidate, axis: Axis, t: real)
    requires AbsReal(AcrossOffset(a, b, axis)) >= RadiusSum(a, b)
    ensures ApartAt(a, b, axis, t)
  {
    var across := AcrossOffset(a, b, axis);
    SquareOrder(RadiusSum(a, b), AbsReal(across));
    assert AbsReal(across) * AbsReal(across) == across * across;
    var along := OffsetAt(a, b, axis, t);
    assert along * along >= 0.0;
  }

  lemma ContactIsPositive(a: Candidate, b: Candidate, axis: Axis, sqrt: real -> real)
    requires IsSqrt(sqrt) && AbsReal(AcrossOffset(a, b, axis)) < RadiusSum(a, b)
    ensures ContactSquared(a, b, axis) > 0.0 && sqrt(ContactSquared(a, b, axis)) > 0.0
  {
    SquareLess(AbsReal(AcrossOffset(a, b, axis)), RadiusSum(a, b));
    assert sqrt(ContactSquared(a, b, axis)) != 0.0;
  }

  lemma UnblockedInstant(a: Candidate, b: Candidate, axis: Axis, contact: real, t: real)
    requires 0.0 <= t <= 1.0 && contact >= 0.0 && contact * contact == ContactSquared(a, b, axis)
    requires ApartAt(a, b, axis, 0.0) && !GrazingPass(a, b, axis)
    requires AbsReal(AcrossOffset(a, b, axis)) < RadiusSum(a, b)
    requires !Touches(RelativeStart(a, b, axis), RelativeDelta(a, b, axis), contact)
    ensures ApartAt(a, b, axis, t)
  {
    hide ApartAt, MinimumDistance, RadiusSum, RelativeStart, RelativeDelta, Across, ContactSquared;
    var start := RelativeStart(a, b, axis);
    var delta := RelativeDelta(a, b, axis);
    ApartFromContact(a, b, axis, 0.0, contact);
    ApartFromContact(a, b, axis, t, contact);
    assert OffsetAt(a, b, axis, 0.0) == start;
    assert OffsetAt(a, b, axis, t) == start + t * delta;
    StaysBeyond(start, delta, contact, t);
  }

  /** An offset that starts beyond the contact distance and does not touch stays beyond it. */
  lemma StaysBeyond(start: real, delta: real, contact: real, t: real)
    requires 0.0 <= t <= 1.0 && AbsReal(start) >= contact >= 0.0 && !Touches(start, delta, contact)
    requires !(AbsReal(start) <= EPS && Crosses(start, delta) && AbsReal(start + delta) > AbsReal(start) + EPS)
    ensures AbsReal(start + t * delta) >= contact
  {
    hide MinimumDistance;
    MinimumIsLowerBound(start, delta, t);
    if AbsReal(start) <= contact + EPS {
      StaysOutside(start, delta, t);
    }
  }

  /**
   A pair that starts apart and is not blocked stays apart through the whole sweep, unless it makes a
   grazing pass, and then it does not.
   */
  lemma UnblockedSweep(a: Candidate, b: Candidate, axis: Axis, sqrt: real -> real)
    requires IsSqrt(sqrt) && ApartAt(a, b, axis, 0.0)
    requires !AxisMovementCollides(a, b, axis, sqrt)
    ensures SweptApart(a, b, axis) <==> !GrazingPass(a, b, axis)
  {
    hide ApartAt, MinimumDistance, RadiusSum, RelativeStart, RelativeDelta, Across, ContactSquared;
    var start := RelativeStart(a, b, axis);
    var delta := RelativeDelta(a, b, axis);
    if AbsReal(AcrossOffset(a, b, axis)) >= RadiusSum(a, b) {
      forall t: real | 0.0 <= t <= 1.0
        ensures ApartAt(a, b, axis, t)
      {
        WideApart(a, b, axis, t);
      }
    } else {
      ContactIsPositive(a, b, axis, sqrt);
      var contact := sqrt(ContactSquared(a, b, axis));
      ApartFromContact(a, b, axis, 0.0, contact);
      if GrazingPass(a, b, axis) {
        var t := PassingInstant(start, delta);
        ApartFromContact(a, b, axis, t, contact);
        assert !ApartAt(a, b, axis, t);
      } else {
        forall t: real | 0.0 <= t <= 1.0
          ensures ApartAt(a, b, axis, t)
        {
          UnblockedInstant(a, b, axis, contact, t);
        }
      }
    }
  }

  /** An offset that ends further out and never dips below its start by more than the tolerance, without passing zero. */
  lemma StaysOutside(start: real, delta: real, t: real)
    requires 0.0 <= t <= 1.0
    requires AbsReal(start + delta) > AbsReal(start) + EPS && MinimumDistance(start, delta) >= AbsReal(start) - EPS
    requires !(AbsReal(start) <= EPS && Crosses(start, delta))
    ensures AbsReal(start + t * delta) >= AbsReal(start)
  {
    Fraction(t, delta);
    if Crosses(start, delta) {
      var z := PassingInstant(start, delta);
      MinimumIsLowerBound(start, delta, z);
    }
  }

  lemma BlockedSweep(a: Candidate, b: Candidate, axis: Axis)
    requires ApartAt(a, b, axis, 0.0)
    ensures SweptApart(Reverted(a, axis), Reverted(b, axis), axis)
  {
    forall t: real | 0.0 <= t <= 1.0
      ensures ApartAt(Reverted(a, axis), Reverted(b, axis), axis, t)
    {
    }
  }

  lemma GrazingIsNotBlocked(a: Candidate, b: Candidate, axis: Axis, sqrt: real -> real)
    requires IsSqrt(sqrt) && GrazingPass(a, b, axis)
    ensures !AxisMovementCollides(a, b, axis, sqrt)
  {
    hide RadiusSum, RelativeStart, RelativeDelta, Across, ContactSquared;
    ContactIsPositive(a, b, axis, sqrt);
  }

  /** After resolving a pair that nobody else can block, its sweep is apart exactly without a grazing pass. */
  lemma ResolvedSweep(players: seq<Mover>, cs: seq<Candidate>, axis: Axis, sqrt: real -> real, i: int, j: int)
    requires |players| == |cs| && OnlyLive(players, i, j) && IsSqrt(sqrt)
    requires ApartAt(cs[i], cs[j], axis, 0.0)
    ensures var r := Resolve(players, cs, axis, sqrt);
            SweptApart(r[i], r[j], axis) <==> !GrazingPass(cs[i], cs[j], axis)
  {
    hide AxisMovementCollides, SweptApart, ApartAt, GrazingPass;
    assert Blocked(players, cs, axis, sqrt, i) <==> PairCollides(players, cs, axis, sqrt, i, j);
    assert Blocked(players, cs, axis, sqrt, j) <==> PairCollides(players, cs, axis, sqrt, i, j);
    if AxisMovementCollides(cs[i], cs[j], axis, sqrt) {
      BlockedSweep(cs[i], cs[j], axis);
      if GrazingPass(cs[i], cs[j], axis) {
        GrazingIsNotBlocked(cs[i], cs[j], axis, sqrt);
      }
    } else {
      UnblockedSweep(cs[i], cs[j], axis, sqrt);
    }
  }

  // ---------- Two live players through the whole phase ----------

  ghost predicate OnlyLive(players: seq<Mover>, i: int, j: int) {
    && 0 <= i < j < |players|
    && forall k :: 0 <= k < |players| ==> (!players[k].dead <==> k == i || k == j)
  }

  predicate PlayersApart(a: Mover, b: Mover) {
    var dx := a.pos.x - b.pos.x;
    var dy := a.pos.y - b.pos.y;
    var radiusSum := Max(a.radius, 0.0) + Max(b.radius, 0.0);
    dx * dx + dy * dy >= radiusSum * radiusSum
  }

  lemma {:induction false} SweepXFrame(m: MapData, players: seq<Mover>, inputs: seq<PreparedInput>, i: int)
    requires 0 <= i < |players|
    ensures var c := SweepX(m, StartCandidates(players), inputs)[i];
            c.origin == players[i].pos && c.radius == players[i].radius && c.target.y == c.origin.y
  {
    hide Collides;
    if inputs != [] {
      SweepXFrame(m, players, inputs[..|inputs| - 1], i);
    }
  }

  lemma EndOfXIsStartOfY(a: Candidate, b: Candidate, a': Candidate, b': Candidate)
    requires ApartAt(a, b, AxisX, 1.0)
    requires a'.origin == a.origin && a'.radius == a.radius && a'.target.x == a.target.x
    requires b'.origin == b.origin && b'.radius == b.radius && b'.target.x == b.target.x
    ensures ApartAt(a', b', AxisY, 0.0)
  {
    assert OffsetAt(a, b, AxisX, 1.0) == AcrossOffset(a', b', AxisY);
    assert OffsetAt(a', b', AxisY, 0.0) == AcrossOffset(a, b, AxisX);
  }

  lemma EndOfYIsApart(a: Candidate, b: Candidate, p: Mover, q: Mover)
    requires ApartAt(a, b, AxisY, 1.0)
    requires p.pos == a.target && p.radius == a.radius && q.pos == b.target && q.radius == b.radius
    ensures PlayersApart(p, q)
  {
    assert OffsetAt(a, b, AxisY, 1.0) == p.pos.y - q.pos.y;
  }

  /**
   With exactly two live players that start apart, their interiors stay disjoint at every instant of both
   axis sweeps if and only if neither sweep is a grazing pass; then they also end apart.
   */
  lemma TwoPlayersStayApart(m: MapData, players: seq<Mover>, inputs: seq<PreparedInput>, sqrt: real -> real, i: int, j: int)
    requires OnlyLive(players, i, j) && IsSqrt(sqrt) && PlayersApart(players[i], players[j])
    ensures var xs := SweepX(m, StartCandidates(players), inputs);
            var x := AfterX(m, players, inputs, sqrt);
            var ys := SweepY(m, x, inputs);
            var y := AfterY(m, players, inputs, sqrt);
            var after := Moved(m, players, inputs, sqrt);
            && (SweptApart(x[i], x[j], AxisX) && SweptApart(y[i], y[j], AxisY)
                <==> !GrazingPass(xs[i], xs[j], AxisX) && !GrazingPass(ys[i], ys[j], AxisY))
            && (SweptApart(x[i], x[j], AxisX) && SweptApart(y[i], y[j], AxisY) ==> PlayersApart(after[i], after[j]))
  {
    hide AxisMovementCollides, ApartAt, GrazingPass, Collides, PlayersApart;
    SweepXFrame(m, players, inputs, i);
    SweepXFrame(m, players, inputs, j);
    var xs := SweepX(m, StartCandidates(players), inputs);
    var x := AfterX(m, players, inputs, sqrt);
    var ys := SweepY(m, x, inputs);
    var y := AfterY(m, players, inputs, sqrt);
    StartsApart(players[i], players[j], xs[i], xs[j]);
    ResolvedSweep(players, xs, AxisX, sqrt, i, j);
    if SweptApart(x[i], x[j], AxisX) {
      assert ApartAt(x[i], x[j], AxisX, 1.0);
      EndOfXIsStartOfY(x[i], x[j], ys[i], ys[j]);
      ResolvedSweep(players, ys, AxisY, sqrt, i, j);
      if SweptApart(y[i], y[j], AxisY) {
        var after := Moved(m, players, inputs, sqrt);
        assert ApartAt(y[i], y[j], AxisY, 1.0);
        EndOfYIsApart(y[i], y[j], after[i], after[j]);
      }
    }
  }

  lemma StartsApart(p: Mover, q: Mover, a: Candidate, b: Candidate)
    requires PlayersApart(p, q)
    requires a.origin == p.pos && a.radius == p.radius && b.origin == q.pos && b.radius == q.radius
    ensures ApartAt(a, b, AxisX, 0.0)
  {
    assert OffsetAt(a, b, AxisX, 0.0) == p.pos.x - q.pos.x;
  }

  /**
   Players that start apart can only graze if their offset across the axis misses the radius sum by next to
   nothing: by a part in 10^24 for a sum of one, which no float64 resolves.
   */
  lemma GrazingIsNarrow(a: Candidate, b: Candidate, axis: Axis)
    requires ApartAt(a, b, axis, 0.0) && GrazingPass(a, b, axis)
    ensures 0.0 < (RadiusSum(a, b) - AbsReal(AcrossOffset(a, b, axis))) * RadiusSum(a, b) <= EPS * EPS
  {
    hide RadiusSum, AcrossOffset;
    var r, c, start := RadiusSum(a, b), AbsReal(AcrossOffset(a, b, axis)), RelativeStart(a, b, axis);
    SquareOrder(AbsReal(start), EPS);
    assert AbsReal(start) * AbsReal(start) == start * start && c * c == AcrossOffset(a, b, axis) * AcrossOffset(a, b, axis);
    assert r * r - c * c == (r - c) * r + (r - c) * c;
    MulPositive(r - c, r);
    MulNonNegative(r - c, c);
  }

  /** The powers of two with exponents -20, -21, -40 and -73. */
  const TWO_20: real := 1.0 / 1048576.0
  const TWO_21: real := 1.0 / 2097152.0
  const TWO_40: real := 1.0 / 1099511627776.0
  const TWO_73: real := 1.0 / 9444732965739290427392.0

  const OPEN_MAP: MapData := MapData(3, 3, 1.0, [[0, 0, 0], [0, 0, 0], [0, 0, 0]])

  /**
   Such a pass happens to players: on a map without walls the first of two, of radius 2^-21 each and 2^-40
   apart along x, steps through the other. All numbers are float64 values.
   */
  lemma GrazingPassExample(sqrt: real -> real)
    requires IsSqrt(sqrt)
    ensures var players := [Mover(Vector2(0.0, 0.0), TWO_21, false),
                            Mover(Vector2(TWO_40, TWO_20 - TWO_73), TWO_21, false)];
      var inputs := [PreparedInput(0, Vector2(0.5, 0.0))];
      var x := AfterX(OPEN_MAP, players, inputs, sqrt);
      && Rectangular(OPEN_MAP) && OnlyLive(players, 0, 1) && PlayersApart(players[0], players[1])
      && !SweptApart(x[0], x[1], AxisX)
      && Moved(OPEN_MAP, players, inputs, sqrt)[0].pos == Vector2(0.5, 0.0)
  {
    hide Collides, AxisMovementCollides;
    var a := Mover(Vector2(0.0, 0.0), TWO_21, false);
    var b := Mover(Vector2(TWO_40, TWO_20 - TWO_73), TWO_21, false);
    var players, inputs := [a, b], [PreparedInput(0, Vector2(0.5, 0.0))];
    NothingInTheWay(Vector2(0.5, 0.0), TWO_21);
    assert inputs[..0] == [];
    assert SweepX(OPEN_MAP, StartCandidates(players), inputs[..0]) == StartCandidates(players);
    var xs := SweepX(OPEN_MAP, StartCandidates(players), inputs);
    assert xs[0] == Candidate(a.pos, Vector2(0.5, 0.0), a.radius) && xs[1] == Candidate(b.pos, b.pos, b.radius);
    GrazingNumbers(a, b, xs[0], xs[1]);
    StartsApart(a, b, xs[0], xs[1]);
    GrazingIsNotBlocked(xs[0], xs[1], AxisX, sqrt);
    ResolvedSweep(players, xs, AxisX, sqrt, 0, 1);
    var x := AfterX(OPEN_MAP, players, inputs, sqrt);
    assert !PairCollides(players, xs, AxisX, sqrt, 0, 1);
    assert x[0] == xs[0] && x[1] == xs[1];
    var ys := SweepY(OPEN_MAP, x, inputs);
    assert Vector2(0.5, 0.0 + 0.0) == Vector2(0.5, 0.0);
    assert ys[0].target == Vector2(0.5, 0.0) && Reverted(ys[0], AxisY) == ys[0];
  }

  lemma NothingInTheWay(p: Vector2, radius: real)
    requires -1.0 <= p.x <= 1.0 && -1.0 <= p.y <= 1.0 && 0.0 <= radius <= 0.5
    ensures !Collides(OPEN_MAP, p, radius, BlocksPlayer)
  {
    assert forall x, y :: 0 <= x < 3 && 0 <= y < 3 ==> OPEN_MAP.rows[y][x] == 0;
  }

  lemma GrazingNumbers(p: Mover, q: Mover, a: Candidate, b: Candidate)
    requires p.pos == Vector2(0.0, 0.0) && q.pos == Vector2(TWO_40, TWO_20 - TWO_73)
    requires p.radius == TWO_21 == q.radius
    requires a == Candidate(p.pos, Vector2(0.5, 0.0), p.radius) && b == Candidate(q.pos, q.pos, q.radius)
    ensures PlayersApart(p, q) && GrazingPass(a, b, AxisX)
  {
  }

  // ---------- Whom the pairwise pass blocks ----------

  /** The computed minimum is the offset's magnitude at some instant of the sweep. */
  lemma MinimumIsReached(start: real, delta: real) returns (t: real)
    ensures 0.0 <= t <= 1.0 && MinimumDistance(start, delta) == AbsReal(start + t * delta)
  {
    if MinimumDistance(start, delta) == AbsReal(start) {
      t := 0.0;
    } else if MinimumDistance(start, delta) == AbsReal(start + delta) {
      t := 1.0;
    } else {
      t := Clamp(-start / delta, 0.0, 1.0);
      assert t * delta == delta * t;
    }
  }

  /** At some instant of the sweep the two are no further apart along the axis than this. */
  ghost predicate ComesWithin(a: Candidate, b: Candidate, axis: Axis, distance: real) {
    exists t: real :: 0.0 <= t <= 1.0 && AbsReal(OffsetAt(a, b, axis, t)) <= distance
  }

  /** At no instant of the sweep are the two nearer along the axis than this. */
  ghost predicate StaysFrom(a: Candidate, b: Candidate, axis: Axis, distance: real) {
    forall t: real :: 0.0 <= t <= 1.0 ==> AbsReal(OffsetAt(a, b, axis, t)) >= distance
  }

  /**
   What the pair test decides, as geometry. With the offset along the axis at which the circles would touch
   for a contact distance: a pair further apart than that collides exactly if its sweep brings it that near,
   and a nearer one exactly unless it ends further apart without ever coming nearer, each to within the tolerance.
   */
  lemma CollidesExactly(a: Candidate, b: Candidate, axis: Axis, sqrt: real -> real)
    requires IsSqrt(sqrt)
    ensures AxisMovementCollides(a, b, axis, sqrt) <==>
              && AbsReal(AcrossOffset(a, b, axis)) <= RadiusSum(a, b)
              && var contact := sqrt(ContactSquared(a, b, axis));
                 var start := AbsReal(OffsetAt(a, b, axis, 0.0));
                 if start > contact + EPS then ComesWithin(a, b, axis, contact + EPS)
                 else !(AbsReal(OffsetAt(a, b, axis, 1.0)) > start + EPS && StaysFrom(a, b, axis, start - EPS))
  {
    hide MinimumDistance, ContactSquared, RadiusSum, RelativeStart, RelativeDelta, Across;
    ContactSign(a, b, axis);
    var start, delta := RelativeStart(a, b, axis), RelativeDelta(a, b, axis);
    assert OffsetAt(a, b, axis, 0.0) == start && OffsetAt(a, b, axis, 1.0) == start + delta;
    MinimumIsWithin(a, b, axis, sqrt(ContactSquared(a, b, axis)) + EPS);
    MinimumIsFrom(a, b, axis, AbsReal(start) - EPS);
  }

  lemma ContactSign(a: Candidate, b: Candidate, axis: Axis)
    ensures ContactSquared(a, b, axis) >= 0.0 <==> AbsReal(AcrossOffset(a, b, axis)) <= RadiusSum(a, b)
  {
    SquareOrder(AbsReal(AcrossOffset(a, b, axis)), RadiusSum(a, b));
  }

  lemma MinimumIsWithin(a: Candidate, b: Candidate, axis: Axis, distance: real)
    ensures MinimumDistance(RelativeStart(a, b, axis), RelativeDelta(a, b, axis)) <= distance <==> ComesWithin(a, b, axis, distance)
  {
    hide MinimumDistance, RelativeStart, RelativeDelta;
    var start, delta := RelativeStart(a, b, axis), RelativeDelta(a, b, axis);
    var t := MinimumIsReached(start, delta);
    assert OffsetAt(a, b, axis, t) == start + t * delta;
    if u: real :| 0.0 <= u <= 1.0 && AbsReal(OffsetAt(a, b, axis, u)) <= distance {
      MinimumIsLowerBound(start, delta, u);
    }
  }

  lemma MinimumIsFrom(a: Candidate, b: Candidate, axis: Axis, distance: real)
    ensures MinimumDistance(RelativeStart(a, b, axis), RelativeDelta(a, b, axis)) >= distance <==> StaysFrom(a, b, axis, distance)
  {
    hide MinimumDistance, RelativeStart, RelativeDelta;
    var start, delta := RelativeStart(a, b, axis), RelativeDelta(a, b, axis);
    var t := MinimumIsReached(start, delta);
    assert OffsetAt(a, b, axis, t) == start + t * delta;
    forall u: real | 0.0 <= u <= 1.0
      ensures MinimumDistance(start, delta) <= AbsReal(OffsetAt(a, b, axis, u))
    {
      MinimumIsLowerBound(start, delta, u);
    }
  }

  /** Side by side with room to spare, or further apart along the axis than the contact distance at every instant. */
  ghost predicate KeepsAway(a: Candidate, b: Candidate, axis: Axis, sqrt: real -> real) {
    || AbsReal(AcrossOffset(a, b, axis)) > RadiusSum(a, b)
    || !ComesWithin(a, b, axis, sqrt(ContactSquared(a, b, axis)) + EPS)
  }

  lemma AwayIsFree(a: Candidate, b: Candidate, axis: Axis, sqrt: real -> real)
    requires IsSqrt(sqrt) && (KeepsAway(a, b, axis, sqrt) || KeepsAway(b, a, axis, sqrt))
    ensures !AxisMovementCollides(a, b, axis, sqrt)
  {
    hide ContactSquared, RadiusSum, RelativeStart, RelativeDelta, Across, AxisMovementCollides;
    CollidesExactly(a, b, axis, sqrt);
    KeepsAwayBoth(a, b, axis, sqrt);
    assert 0.0 <= 0.0 <= 1.0 && !ComesWithin(a, b, axis, sqrt(ContactSquared(a, b, axis)) + EPS) ==>
        AbsReal(OffsetAt(a, b, axis, 0.0)) > sqrt(ContactSquared(a, b, axis)) + EPS;
  }

  lemma KeepsAwayBoth(a: Candidate, b: Candidate, axis: Axis, sqrt: real -> real)
    ensures KeepsAway(a, b, axis, sqrt) <==> KeepsAway(b, a, axis, sqrt)
  {
    assert RadiusSum(a, b) == RadiusSum(b, a) && AbsReal(AcrossOffset(a, b, axis)) == AbsReal(AcrossOffset(b, a, axis));
    assert ContactSquared(a, b, axis) == ContactSquared(b, a, axis);
    forall t: real
      ensures AbsReal(OffsetAt(a, b, axis, t)) == AbsReal(OffsetAt(b, a, axis, t))
    {
      assert RelativeDelta(b, a, axis) == -RelativeDelta(a, b, axis);
      assert t * -RelativeDelta(a, b, axis) == -(t * RelativeDelta(a, b, axis));
    }
    hide OffsetAt, ContactSquared, RadiusSum;
  }

  /** At most one input for each player. */
  predicate OneInputEach(inputs: seq<PreparedInput>) {
    forall k, l :: 0 <= k < l < |inputs| ==> inputs[k].playerIndex != inputs[l].playerIndex
  }

  lemma {:induction false} InputForExact(inputs: seq<PreparedInput>, index: int, k: nat)
    requires OneInputEach(inputs) && k < |inputs| && inputs[k].playerIndex == index
    ensures InputFor(inputs, index) == Some(inputs[k])
  {
    if k > 0 {
      InputForExact(inputs[1..], index, k - 1);
    }
  }

  lemma {:induction false} SweepXFor(m: MapData, players: seq<Mover>, inputs: seq<PreparedInput>, i: int)
    requires OneInputEach(inputs) && 0 <= i < |players|
    ensures var start := StartCandidates(players)[i];
      && (forall k :: 0 <= k < |inputs| && inputs[k].playerIndex == i ==>
            SweepX(m, StartCandidates(players), inputs)[i] == TryX(m, start, inputs[k].movement))
      && ((forall k :: 0 <= k < |inputs| ==> inputs[k].playerIndex != i) ==>
            SweepX(m, StartCandidates(players), inputs)[i] == start)
  {
    hide TryX;
    if inputs != [] {
      SweepXFor(m, players, inputs[..|inputs| - 1], i);
    }
  }

  /** No wall and no live player stands in the way of player `i` on this axis. */
  ghost predicate FreeOnAxis(players: seq<Mover>, cs: seq<Candidate>, axis: Axis, sqrt: real -> real, i: int)
    requires |players| == |cs| && 0 <= i < |cs|
  {
    players[i].dead || forall j :: 0 <= j < |cs| && j != i && !players[j].dead ==> KeepsAway(cs[i], cs[j], axis, sqrt)
  }

  lemma FreeIsNotBlocked(players: seq<Mover>, cs: seq<Candidate>, axis: Axis, sqrt: real -> real, i: int)
    requires IsSqrt(sqrt) && |players| == |cs| && 0 <= i < |cs| && FreeOnAxis(players, cs, axis, sqrt, i)
    ensures !Blocked(players, cs, axis, sqrt, i)
  {
    hide KeepsAway, AxisMovementCollides;
    forall j | 0 <= j < |cs| && j != i && !players[i].dead && !players[j].dead
      ensures !AxisMovementCollides(cs[i], cs[j], axis, sqrt) && !AxisMovementCollides(cs[j], cs[i], axis, sqrt)
    {
      AwayIsFree(cs[i], cs[j], axis, sqrt);
      AwayIsFree(cs[j], cs[i], axis, sqrt);
    }
  }

  /** The two wall tests of the phase. */
  ghost function LoneStep(m: MapData, p: Vector2, radius: real, movement: Vector2): Vector2 {
    var x := if Collides(m, Vector2(p.x + movement.x, p.y), radius, BlocksPlayer) then p.x else p.x + movement.x;
    var y := if Collides(m, Vector2(x, p.y + movement.y), radius, BlocksPlayer) then p.y else p.y + movement.y;
    Vector2(x, y)
  }

  /**
   With any number of players: one that keeps away from every other live player in both sweeps moves as the walls
   allow, and if these do not stop it either it ends at its position plus its movement.
   */
  lemma FreePlayerMoves(m: MapData, players: seq<Mover>, inputs: seq<PreparedInput>, sqrt: real -> real, i: int, k: nat)
    requires IsSqrt(sqrt) && OneInputEach(inputs) && 0 <= i < |players|
    requires k < |inputs| && inputs[k].playerIndex == i
    requires FreeOnAxis(players, SweepX(m, StartCandidates(players), inputs), AxisX, sqrt, i)
    requires FreeOnAxis(players, SweepY(m, AfterX(m, players, inputs, sqrt), inputs), AxisY, sqrt, i)
    ensures var p := players[i];
      var d := inputs[k].movement;
      var q := Vector2(p.pos.x + d.x, p.pos.y + d.y);
      && Moved(m, players, inputs, sqrt)[i] == p.(pos := LoneStep(m, p.pos, p.radius, d))
      && (Clear(m, Vector2(q.x, p.pos.y), p.radius) && Clear(m, q, p.radius) ==> Moved(m, players, inputs, sqrt)[i].pos == q)
  {
    hide Collides, FreeOnAxis, Blocked;
    InputForExact(inputs, i, k);
    SweepXFor(m, players, inputs, i);
    var xs := SweepX(m, StartCandidates(players), inputs);
    FreeIsNotBlocked(players, xs, AxisX, sqrt, i);
    var ys := SweepY(m, AfterX(m, players, inputs, sqrt), inputs);
    FreeIsNotBlocked(players, ys, AxisY, sqrt, i);
  }

  /** A player without an input stays where it is, whoever runs into it. */
  lemma IdlePlayerStays(m: MapData, players: seq<Mover>, inputs: seq<PreparedInput>, sqrt: real -> real, i: int)
    requires OneInputEach(inputs) && 0 <= i < |players|
    requires forall k :: 0 <= k < |inputs| ==> inputs[k].playerIndex != i
    ensures Moved(m, players, inputs, sqrt)[i] == players[i]
  {
    hide Collides, Blocked;
    SweepXFor(m, players, inputs, i);
    NoInputFor(inputs, i);
  }

  lemma {:induction false} NoInputFor(inputs: seq<PreparedInput>, index: int)
    requires forall k :: 0 <= k < |inputs| ==> inputs[k].playerIndex != index
    ensures InputFor(inputs, index) == None
  {
    if inputs != [] {
      NoInputFor(inputs[1..], index);
    }
  }

  // ---------- A lone live player ----------

  /** For the only live player the phase is the two wall tests, whatever the square root. */
  lemma LoneMovement(m: MapData, players: seq<Mover>, movement: Vector2, sqrt: real -> real, i: int)
    requires 0 <= i < |players|
    requires forall k :: 0 <= k < |players| && k != i ==> players[k].dead
    ensures Moved(m, players, [PreparedInput(i, movement)], sqrt)[i].pos
            == LoneStep(m, players[i].pos, players[i].radius, movement)
  {
    hide AxisMovementCollides, Collides;
    var inputs := [PreparedInput(i, movement)];
    assert inputs[..|inputs| - 1] == [];
    assert SweepX(m, StartCandidates(players), inputs[..|inputs| - 1]) == StartCandidates(players);
    var xs := SweepX(m, StartCandidates(players), inputs);
    assert xs[i] == TryX(m, StartCandidates(players)[i], movement);
    assert !Blocked(players, xs, AxisX, sqrt, i);
    var ys := SweepY(m, AfterX(m, players, inputs, sqrt), inputs);
    assert !Blocked(players, ys, AxisY, sqrt, i);
  }
}

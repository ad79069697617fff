/**
 The event loop of the dashes with the contact times that the code computes for two dashers: between two events no two
 moving dashers come into contact.
 */
module DashContact {
  import opened Wrappers
  import opened World
  import opened SkillDash
  import opened CircleContact

  /** Where a dasher that nothing stops is at a time of the tick. */
  function PositionAt(c: Candidate, time: real): Vector2 {
    AddScaled(c.origin, c.direction, Share(c.distance, Clamp(time, 0.0, 1.0)))
  }

  /** The contact time of two dashers, each on the rest of its way; one that has stopped stays. */
  function PairTime(sqrt: real -> real, a: Candidate, b: Candidate, current: real): Option<real> {
    MovingCirclesContact(sqrt, PositionAt(a, current), a.target, a.radius, PositionAt(b, current), b.target, b.radius)
  }

  function BlockerTime(sqrt: real -> real, a: Candidate, b: Candidate, current: real): Option<real> {
    MovingCirclesContact(sqrt, PositionAt(a, current), a.target, a.radius, b.position, b.position, b.radius)
  }

  /** These finders use the code's own contact times between dashers. */
  ghost predicate UsesCircles(finders: Finders, sqrt: real -> real) {
    && (forall a, b, t :: finders.pair(a, b, t) == PairTime(sqrt, a, b, t))
    && (forall a, b, t :: finders.blocker(a, b, t) == BlockerTime(sqrt, a, b, t))
  }

  predicate OnCourse(c: Candidate) {
    c.active && c.target == AddScaled(c.origin, c.direction, c.distance)
  }

  /** The local instant of the rest of the way at which it is `u` o'clock. */
  function LocalTime(current: real, u: real): real
    requires current < 1.0
  {
    (u - current) / (1.0 - current)
  }

  lemma LocalTimeIs(current: real, u: real)
    requires 0.0 <= current <= u <= 1.0 && current < 1.0
    ensures 0.0 <= LocalTime(current, u) <= 1.0 && GlobalTime(current, LocalTime(current, u)) == u
  {
    var rest := 1.0 - current;
    var t := LocalTime(current, u);
    assert t * rest == u - current;
    if t < 0.0 { MulPositive(-t, rest); }
    if t > 1.0 { MulPositive(t - 1.0, rest); }
    assert rest * t == t * rest;
  }

  lemma GlobalTimeGrows(current: real, t: real, h: real)
    requires 0.0 <= current < 1.0 && 0.0 <= h <= t <= 1.0
    ensures GlobalTime(current, h) <= GlobalTime(current, t)
  {
    MulNonNegative(1.0 - current, t - h);
  }

  /** The place at `u` o'clock is the place that far on the rest of the way. */
  lemma PlaceOnTheWay(c: Candidate, current: real, t: real)
    requires OnCourse(c) && 0.0 <= current <= 1.0 && 0.0 <= t <= 1.0
    ensures PositionAt(c, GlobalTime(current, t)) == PlaceAt(PositionAt(c, current), c.target, t)
  {
    GlobalTimeIsThere(c.distance, current, t);
    GlobalTimeWithin(current, t);
    hide GlobalTime, Share;
    var gone := Share(c.distance, current);
    assert WayAt(c.distance, current) == gone;
    var rest := Share(c.distance - gone, t);
    assert rest == (c.distance - gone) * t by { ShareIs(c.distance - gone, t); }
    SplitWay(c.origin.x, c.direction.x, gone, c.distance, t, rest);
    SplitWay(c.origin.y, c.direction.y, gone, c.distance, t, rest);
  }

  lemma ShareIs(whole: real, part: real)
    ensures Share(whole, part) == whole * part
  {
  }

  lemma SplitWay(o: real, d: real, gone: real, all: real, t: real, rest: real)
    requires rest == (all - gone) * t
    ensures o + d * (gone + rest) == (o + d * gone) + t * ((o + d * all) - (o + d * gone))
  {
    assert d * (gone + rest) == d * gone + d * rest;
    assert d * rest == t * (d * all - d * gone);
  }

  /** Two dashers' movement over the rest of the tick, one as seen from the other. */
  function RestOf(a: Candidate, b: Candidate, current: real): Sweep {
    Relative(PositionAt(a, current), a.target, a.radius, PositionAt(b, current), b.target, b.radius)
  }

  /** By how much two dashers are apart at a time, as squares. */
  function Distance(a: Candidate, b: Candidate, time: real): real {
    LengthSquared(Minus(PositionAt(a, time), PositionAt(b, time))) - Square(Max(a.radius, 0.0) + Max(b.radius, 0.0))
  }

  lemma DistanceIsGap(a: Candidate, b: Candidate, current: real, t: real)
    requires OnCourse(a) && OnCourse(b) && 0.0 <= current <= 1.0 && 0.0 <= t <= 1.0
    ensures Distance(a, b, GlobalTime(current, t)) == Clearance(RestOf(a, b, current), t)
  {
    hide PositionAt, GlobalTime, OnCourse, Clearance, LengthSquared;
    PlaceOnTheWay(a, current, t);
    PlaceOnTheWay(b, current, t);
    GapIsClearance(PositionAt(a, current), a.target, a.radius, PositionAt(b, current), b.target, b.radius, t);
  }

  lemma StartsAtZero(current: real)
    ensures GlobalTime(current, 0.0) == current
  {
  }

  lemma PairIsReported(cs: seq<Candidate>, finders: Finders, current: real, i: nat, j: nat)
    requires i < j < |cs| && cs[i].active && cs[j].active && finders.pair(cs[i], cs[j], current).Some?
    ensures exists c :: c in Reports(cs, finders, current) && c.time == GlobalTime(current, finders.pair(cs[i], cs[j], current).value)
  {
    var c := Contact(GlobalTime(current, finders.pair(cs[i], cs[j], current).value), [i, j]);
    assert PairContact(c, cs, finders, current, i, j);
    ReportsExact(cs, finders, current, c);
  }

  /**
   Until the event that a round finds, two moving dashers that are apart stay apart, and two that are in contact, if
   they go on at all, come no closer; unless their ways only graze each other.
   */
  lemma MovingDashersStayApart(sqrt: real -> real, cs: seq<Candidate>, finders: Finders, current: real, i: nat, j: nat, u: real)
    requires IsSqrt(sqrt) && UsesCircles(finders, sqrt) && 0.0 <= current < 1.0
    requires i < j < |cs| && OnCourse(cs[i]) && OnCourse(cs[j])
    requires var p := RestOf(cs[i], cs[j], current); A(p) == 0.0 || !Grazes(p)
    requires var f := Round(cs, finders, current);
      current <= u <= 1.0 && (f.earliest.Some? ==> u < f.earliest.value - SkillDash.TIME_EPS)
    ensures if Distance(cs[i], cs[j], current) > CircleContact.TIME_EPS then Distance(cs[i], cs[j], u) > 0.0
            else Distance(cs[i], cs[j], u) >= Distance(cs[i], cs[j], current)
  {
    var a, b := cs[i], cs[j];
    var p := RestOf(a, b, current);
    var t := LocalTime(current, u);
    LocalTimeIs(current, u);
    StartsAtZero(current);
    DistanceIsGap(a, b, current, t);
    DistanceIsGap(a, b, current, 0.0);
    ContactIsFirstTouch(sqrt, PositionAt(a, current), a.target, a.radius, PositionAt(b, current), b.target, b.radius);
    hide Distance, Round, Reports, PositionAt, GlobalTime, LocalTime, Clearance, Gap, MovingCirclesContact, A, B, Grazes, OnCourse;
    var hit := PairTime(sqrt, a, b, current);
    assert finders.pair(a, b, current) == hit;
    if hit.Some? {
      assert a.active && b.active by { Moving(a); Moving(b); }
      PairIsReported(cs, finders, current, i, j);
      NotBeforeReport(cs, finders, current, GlobalTime(current, hit.value));
      if t >= hit.value { GlobalTimeGrows(current, t, hit.value); }
    } else if Clearance(p, 0.0) <= CircleContact.TIME_EPS {
      LetGoMovesApart(p, t);
    }
  }

  lemma Moving(c: Candidate)
    requires OnCourse(c)
    ensures c.active
  {
  }

  lemma NotBeforeReport(cs: seq<Candidate>, finders: Finders, current: real, time: real)
    requires 0.0 <= current <= 1.0 && exists c :: c in Reports(cs, finders, current) && c.time == time
    ensures Round(cs, finders, current).earliest.Some? && Round(cs, finders, current).earliest.value - SkillDash.TIME_EPS <= time
  {
    hide Round, Reports;
    RoundFinds(cs, finders, current);
  }

  // ---------- Stopped dashers ----------

  function RestBefore(a: Candidate, b: Candidate, current: real): Sweep {
    Relative(PositionAt(a, current), a.target, a.radius, b.position, b.position, b.radius)
  }

  function DistanceToStopped(a: Candidate, b: Candidate, time: real): real {
    LengthSquared(Minus(PositionAt(a, time), b.position)) - Square(Max(a.radius, 0.0) + Max(b.radius, 0.0))
  }

  lemma StoppedDistanceIsGap(a: Candidate, b: Candidate, current: real, t: real)
    requires OnCourse(a) && 0.0 <= current <= 1.0 && 0.0 <= t <= 1.0
    ensures DistanceToStopped(a, b, GlobalTime(current, t)) == Clearance(RestBefore(a, b, current), t)
  {
    PlaceOnTheWay(a, current, t);
    assert PlaceAt(b.position, b.position, t) == b.position;
    hide PositionAt, GlobalTime, OnCourse, Clearance, LengthSquared;
    GapIsClearance(PositionAt(a, current), a.target, a.radius, b.position, b.position, b.radius, t);
  }

  lemma BlockerIsReported(cs: seq<Candidate>, finders: Finders, current: real, i: nat, j: nat)
    requires i < |cs| && j < |cs| && cs[i].active && !cs[j].active && cs[i].player != cs[j].player
    requires finders.blocker(cs[i], cs[j], current).Some?
    ensures exists c :: c in Reports(cs, finders, current) && c.time == GlobalTime(current, finders.blocker(cs[i], cs[j], current).value)
  {
    var c := Contact(GlobalTime(current, finders.blocker(cs[i], cs[j], current).value), [i]);
    assert BlockerContact(c, cs, finders, current, i, j);
    ReportsExact(cs, finders, current, c);
  }

  /** The same for a moving dasher and one that has stopped. */
  lemma StoppedDashersAreAvoided(sqrt: real -> real, cs: seq<Candidate>, finders: Finders, current: real, i: nat, j: nat, u: real)
    requires IsSqrt(sqrt) && UsesCircles(finders, sqrt) && 0.0 <= current < 1.0
    requires i < |cs| && j < |cs| && OnCourse(cs[i]) && !cs[j].active && cs[i].player != cs[j].player
    requires var p := RestBefore(cs[i], cs[j], current); A(p) == 0.0 || !Grazes(p)
    requires var f := Round(cs, finders, current);
      current <= u <= 1.0 && (f.earliest.Some? ==> u < f.earliest.value - SkillDash.TIME_EPS)
    ensures if DistanceToStopped(cs[i], cs[j], current) > CircleContact.TIME_EPS then DistanceToStopped(cs[i], cs[j], u) > 0.0
            else DistanceToStopped(cs[i], cs[j], u) >= DistanceToStopped(cs[i], cs[j], current)
  {
    var a, b := cs[i], cs[j];
    var p := RestBefore(a, b, current);
    var t := LocalTime(current, u);
    LocalTimeIs(current, u);
    StartsAtZero(current);
    StoppedDistanceIsGap(a, b, current, t);
    StoppedDistanceIsGap(a, b, current, 0.0);
    ContactIsFirstTouch(sqrt, PositionAt(a, current), a.target, a.radius, b.position, b.position, b.radius);
    hide DistanceToStopped, Round, Reports, PositionAt, GlobalTime, LocalTime, Clearance, Gap, MovingCirclesContact, A, B, Grazes, OnCourse;
    var hit := BlockerTime(sqrt, a, b, current);
    assert finders.blocker(a, b, current) == hit;
    if hit.Some? {
      assert a.active by { Moving(a); }
      BlockerIsReported(cs, finders, current, i, j);
      NotBeforeReport(cs, finders, current, GlobalTime(current, hit.value));
      if t >= hit.value { GlobalTimeGrows(current, t, hit.value); }
    } else if Clearance(p, 0.0) <= CircleContact.TIME_EPS {
      LetGoMovesApart(p, t);
    }
  }
}

/**
 When a moving point first touches a circle, and when two moving circles first touch: the quadratic that melee
 swings and dashes solve, with the code's own tolerances.
 */
module CircleContact {
  import opened Wrappers
  import opened World

  const RELATIVE_TOLERANCE: real := 16.0 * 0.0000000000000002220446049250313
  const TIME_EPS: real := 0.000000000001

  function Square(x: real): real {
    x * x
  }

  /** Start relative to the centre, direction, and radius: the squared distance at `t`, less the squared radius. */
  datatype Sweep = Sweep(o: Vector2, d: Vector2, r: real)

  function A(p: Sweep): real { LengthSquared(p.d) }

  function B(p: Sweep): real { 2.0 * (p.o.x * p.d.x + p.o.y * p.d.y) }

  function C(p: Sweep): real { LengthSquared(p.o) - Square(p.r) }

  function Discriminant(p: Sweep): real { Square(B(p)) - 4.0 * A(p) * C(p) }

  /** What the discriminant's own terms add up to, times the tolerance. */
  function GrazeBound(p: Sweep): real {
    RELATIVE_TOLERANCE * (AbsReal(Square(B(p))) + AbsReal(4.0 * A(p) * C(p)))
  }

  /** The discriminant is so small that the segment's line grazes the circle. */
  predicate Grazes(p: Sweep) {
    AbsReal(Discriminant(p)) <= GrazeBound(p)
  }

  function Root(sqrt: real -> real, p: Sweep): real
    requires A(p) != 0.0
  {
    (-B(p) - sqrt(if Grazes(p) then 0.0 else Discriminant(p))) / (2.0 * A(p))
  }

  function SweepHit(sqrt: real -> real, p: Sweep): Option<real> {
    if C(p) <= 0.0 then Some(0.0)
    else if A(p) == 0.0 then None
    else if !Grazes(p) && Discriminant(p) < 0.0 then None
    else
      var t := Root(sqrt, p);
      if t < -TIME_EPS || t > 1.0 + TIME_EPS then None else Some(Clamp(t, 0.0, 1.0))
  }

  function SegmentCircleHit(sqrt: real -> real, start: Vector2, end: Vector2, center: Vector2, radius: real): Option<real> {
    SweepHit(sqrt, Towards(start, end, center, radius))
  }

  function Towards(start: Vector2, end: Vector2, center: Vector2, radius: real): Sweep {
    Sweep(Vector2(start.x - center.x, start.y - center.y), Vector2(end.x - start.x, end.y - start.y), Max(radius, 0.0))
  }

  // ---------- The first touch ----------

  /** By how much the squared distance at `t` exceeds the squared radius. */
  function Clearance(p: Sweep, t: real): real {
    Square(p.o.x + t * p.d.x) + Square(p.o.y + t * p.d.y) - Square(p.r)
  }

  /** For a segment it is the squared distance of its point from the circle's centre, less the squared radius. */
  lemma SegmentClearance(start: Vector2, end: Vector2, center: Vector2, radius: real, t: real)
    ensures Clearance(Towards(start, end, center, radius), t)
         == LengthSquared(Minus(PlaceAt(start, end, t), center)) - Square(if radius > 0.0 then radius else 0.0)
  {
    hide LengthSquared;
    var p := Towards(start, end, center, radius);
    assert Minus(PlaceAt(start, end, t), center) == Vector2(p.o.x + t * p.d.x, p.o.y + t * p.d.y);
    LengthIsSquares(Minus(PlaceAt(start, end, t), center));
  }

  lemma ClearanceIsQuadratic(p: Sweep, t: real)
    ensures Clearance(p, t) == A(p) * Square(t) + B(p) * t + C(p)
  {
    Expanded(p.o.x, p.d.x, t);
    Expanded(p.o.y, p.d.y, t);
  }

  lemma Expanded(o: real, d: real, t: real)
    ensures Square(o + t * d) == Square(d) * Square(t) + 2.0 * (o * d) * t + Square(o)
  {
    assert Square(o + t * d) == (o + t * d) * (o + t * d);
  }

  /** Completing the square: the sign of the clearance. */
  lemma Completed(p: Sweep, t: real)
    ensures 4.0 * A(p) * Clearance(p, t) == Square(2.0 * A(p) * t + B(p)) - Discriminant(p)
  {
    ClearanceIsQuadratic(p, t);
    CompletedSquare(A(p), B(p), C(p), t, Clearance(p, t));
  }

  lemma CompletedSquare(a: real, b: real, c: real, t: real, f: real)
    requires f == a * Square(t) + b * t + c
    ensures 4.0 * a * f == Square(2.0 * a * t + b) - (Square(b) - 4.0 * a * c)
  {
    assert 4.0 * a * f == 4.0 * a * (a * Square(t) + b * t + c);
    assert 4.0 * a * (a * Square(t) + b * t + c) == Square(2.0 * a * t + b) - (Square(b) - 4.0 * a * c);
  }

  lemma Positive(a: real, f: real)
    requires a > 0.0
    ensures 4.0 * a * f > 0.0 <==> f > 0.0
    ensures 4.0 * a * f == 0.0 <==> f == 0.0
  {
    if f > 0.0 {
      MulPositive(a, f);
    } else if f < 0.0 {
      MulPositive(a, -f);
    }
  }

  /** Beside the lines that miss the circle. */
  lemma MissesClear(p: Sweep, t: real)
    requires A(p) > 0.0 && Discriminant(p) < 0.0
    ensures Clearance(p, t) > 0.0
  {
    hide A, B, Discriminant, Clearance;
    Completed(p, t);
    SquareNonNegative(2.0 * A(p) * t + B(p));
    Positive(A(p), Clearance(p, t));
  }

  lemma SquareNonNegative(x: real)
    ensures Square(x) >= 0.0
  {
  }

  /** A line that meets the circle enters it at the smaller root. */
  lemma BeforeRoot(p: Sweep, s: real, root: real, t: real)
    requires A(p) > 0.0 && s >= 0.0 && Square(s) == Discriminant(p) && Slope(p, root) == -s
    ensures t < root ==> Clearance(p, t) > 0.0
    ensures Clearance(p, root) == 0.0
  {
    hide A, B, C, Discriminant, Clearance, Square;
    CompletedSlope(p, t);
    CompletedSlope(p, root);
    Positive(A(p), Clearance(p, t));
    Positive(A(p), Clearance(p, root));
    SquareOfNegative(s);
    if t < root {
      Steeper(A(p), t, root);
      LargerSquare(s, -Slope(p, t));
      SquareOfNegative(Slope(p, t));
    }
  }

  /** The derivative of the clearance. */
  function Slope(p: Sweep, t: real): real {
    2.0 * A(p) * t + B(p)
  }

  lemma CompletedSlope(p: Sweep, t: real)
    ensures 4.0 * A(p) * Clearance(p, t) == Square(Slope(p, t)) - Discriminant(p)
  {
    Completed(p, t);
  }

  /** A start outside the circle whose smaller root is past has left it behind. */
  lemma PastRoot(p: Sweep, s: real, root: real, t: real)
    requires A(p) > 0.0 && s >= 0.0 && Square(s) == Discriminant(p) && Slope(p, root) == -s && C(p) > 0.0
    requires root < 0.0 <= t
    ensures Clearance(p, t) > 0.0
  {
    hide A, B, C, Discriminant, Clearance, Square;
    StartAhead(p, s, root);
    CompletedSlope(p, t);
    Positive(A(p), Clearance(p, t));
    AtLeast(A(p), t);
    LargerSquare(s, Slope(p, t));
  }

  lemma RootTimes(a: real, b: real, s: real)
    requires a > 0.0
    ensures 2.0 * a * ((-b - s) / (2.0 * a)) == -b - s
  {
  }

  lemma SquareOfNegative(x: real)
    ensures Square(-x) == Square(x)
  {
  }

  lemma Steeper(a: real, t: real, u: real)
    requires a > 0.0 && t < u
    ensures 2.0 * a * t < 2.0 * a * u
  {
    MulPositive(a, u - t);
  }

  lemma AtLeast(a: real, t: real)
    requires a > 0.0 && t >= 0.0
    ensures 2.0 * a * t >= 0.0
  {
    MulNonNegative(a, t);
  }

  lemma LargerSquare(x: real, y: real)
    requires 0.0 <= x < y
    ensures Square(x) < Square(y)
  {
    SquareLess(x, y);
  }

  lemma StartAhead(p: Sweep, s: real, root: real)
    requires A(p) > 0.0 && s >= 0.0 && Square(s) == Discriminant(p) && C(p) > 0.0
    requires root < 0.0 && Slope(p, root) == -s
    ensures B(p) > s
  {
    hide A, B, C, Square;
    Steeper(A(p), root, 0.0);
    assert B(p) + s > 0.0;
    MulPositive(A(p), C(p));
    assert Square(s) < Square(B(p));
    if B(p) <= s {
      SquareOfNegative(B(p));
      if B(p) >= 0.0 { NotSmaller(B(p), s); } else { NotSmaller(-B(p), s); }
    }
  }

  lemma NotSmaller(x: real, y: real)
    requires 0.0 <= x <= y
    ensures Square(x) <= Square(y)
  {
    if x < y { SquareLess(x, y); }
  }

  /**
   The hit is the first instant of the segment at which it touches the circle, to within the tolerance in time; without
   a hit it does not touch the circle at all.
   */
  ghost predicate IsFirstTouch(p: Sweep, hit: Option<real>) {
    if hit.None? then forall t :: 0.0 <= t <= 1.0 ==> Clearance(p, t) > 0.0
    else
      && 0.0 <= hit.value <= 1.0
      && (forall t :: 0.0 <= t < hit.value ==> Clearance(p, t) > 0.0)
      && (exists u :: AbsReal(u - hit.value) <= TIME_EPS && Clearance(p, u) <= 0.0)
      && (0.0 < hit.value < 1.0 ==> Clearance(p, hit.value) == 0.0)
  }

  /** Unless a start outside the circle only grazes it, the hit is the first touch. */
  lemma HitIsFirstTouch(sqrt: real -> real, p: Sweep)
    requires IsSqrt(sqrt) && (C(p) <= 0.0 || A(p) == 0.0 || !Grazes(p))
    ensures IsFirstTouch(p, SweepHit(sqrt, p))
  {
    hide A, B, C, Discriminant, Grazes, Clearance;
    StartClearance(p);
    LengthNonNegative(p);
    if C(p) <= 0.0 {
      assert Clearance(p, 0.0) <= 0.0 && SweepHit(sqrt, p) == Some(0.0);
    } else if A(p) == 0.0 {
      forall t: real { Standing(p, t); }
    } else if Discriminant(p) < 0.0 {
      forall t: real { MissesClear(p, t); }
    } else {
      var root := Root(sqrt, p);
      forall t: real
        ensures t < root ==> Clearance(p, t) > 0.0
        ensures Clearance(p, root) == 0.0
        ensures root < 0.0 <= t ==> Clearance(p, t) > 0.0
      {
        AtRoot(sqrt, p, t);
      }
    }
  }

  lemma AtRoot(sqrt: real -> real, p: Sweep, t: real)
    requires IsSqrt(sqrt) && A(p) > 0.0 && C(p) > 0.0 && Discriminant(p) >= 0.0 && !Grazes(p)
    ensures var root := Root(sqrt, p);
      && (t < root ==> Clearance(p, t) > 0.0) && Clearance(p, root) == 0.0
      && (root < 0.0 <= t ==> Clearance(p, t) > 0.0)
  {
    hide A, B, C, Discriminant, Grazes, Clearance;
    var s := sqrt(Discriminant(p));
    var root := Root(sqrt, p);
    assert Square(s) == Discriminant(p);
    RootTimes(A(p), B(p), s);
    hide Root, Square;
    BeforeRoot(p, s, root, t);
    if root < 0.0 <= t {
      PastRoot(p, s, root, t);
    }
  }

  lemma StartClearance(p: Sweep)
    ensures Clearance(p, 0.0) == C(p)
  {
  }

  lemma LengthNonNegative(p: Sweep)
    ensures A(p) >= 0.0
  {
  }

  /** Without any movement the clearance stays. */
  lemma Standing(p: Sweep, t: real)
    requires A(p) == 0.0
    ensures Clearance(p, t) == C(p)
  {
    NoDirection(p);
    ClearanceIsQuadratic(p, t);
    hide A, B, C, Clearance, Square;
  }

  lemma NoDirection(p: Sweep)
    requires A(p) == 0.0
    ensures B(p) == 0.0
  {
    hide B, Square, LengthSquared;
    LengthIsSquares(p.d);
    NoSquare(p.d.x, p.d.y);
    NoSquare(p.d.y, p.d.x);
    AlongNothing(p);
  }

  lemma LengthIsSquares(v: Vector2)
    ensures LengthSquared(v) == Square(v.x) + Square(v.y)
  {
  }

  lemma AlongNothing(p: Sweep)
    requires p.d == ZERO
    ensures B(p) == 0.0
  {
  }

  lemma NoSquare(x: real, y: real)
    requires Square(x) + Square(y) == 0.0
    ensures x == 0.0
  {
    hide Square;
    SquareNonNegative(y);
    SquareOfNegative(x);
    if x > 0.0 { SquarePositive(x); }
    if x < 0.0 { SquarePositive(-x); }
  }

  lemma SquarePositive(x: real)
    requires x > 0.0
    ensures Square(x) > 0.0
  {
    SquareLess(0.0, x);
  }

  /** A clearance on the scale of the discriminant. */
  function Scaled(p: Sweep, clearance: real): real {
    4.0 * A(p) * clearance
  }

  /**
   A start outside a circle that is grazed: what is taken for the touch is the instant closest to the circle, where
   the clearance is nothing but for the tolerance.
   */
  lemma GrazingIsClosest(sqrt: real -> real, p: Sweep, t: real)
    requires IsSqrt(sqrt) && C(p) > 0.0 && A(p) > 0.0 && Grazes(p)
    ensures var v := Root(sqrt, p);
      && SweepHit(sqrt, p) == (if v < -TIME_EPS || v > 1.0 + TIME_EPS then None else Some(Clamp(v, 0.0, 1.0)))
      && Clearance(p, v) <= Clearance(p, t)
      && Scaled(p, AbsReal(Clearance(p, v))) <= GrazeBound(p)
  {
    hide A, B, C, Clearance, GrazeBound, Grazes, Root, SweepHit, Discriminant, Scaled;
    GrazingHit(sqrt, p);
    GrazingRoot(sqrt, p);
    GrazesWithin(p);
    VertexIsClosest(p, Root(sqrt, p), t);
  }

  lemma GrazesWithin(p: Sweep)
    requires Grazes(p)
    ensures AbsReal(Discriminant(p)) <= GrazeBound(p)
  {
    hide Discriminant, GrazeBound;
  }

  lemma GrazingHit(sqrt: real -> real, p: Sweep)
    requires C(p) > 0.0 && A(p) > 0.0 && Grazes(p)
    ensures var v := Root(sqrt, p);
      SweepHit(sqrt, p) == if v < -TIME_EPS || v > 1.0 + TIME_EPS then None else Some(Clamp(v, 0.0, 1.0))
  {
    hide A, B, C, Grazes, Discriminant, Root;
  }

  lemma GrazingRoot(sqrt: real -> real, p: Sweep)
    requires IsSqrt(sqrt) && A(p) > 0.0 && Grazes(p)
    ensures Slope(p, Root(sqrt, p)) == 0.0
  {
    hide A, B, Grazes;
    RootOfZero(sqrt);
    RootTimes(A(p), B(p), 0.0);
  }

  lemma VertexIsClosest(p: Sweep, v: real, t: real)
    requires A(p) > 0.0 && Slope(p, v) == 0.0
    ensures Scaled(p, AbsReal(Clearance(p, v))) == AbsReal(Discriminant(p)) && Clearance(p, v) <= Clearance(p, t)
  {
    hide A, B, C, Discriminant, Clearance, Square, Slope;
    AtVertex(p, v);
    CompletedSlope(p, t);
    SquareNonNegative(Slope(p, t));
    Magnitude(A(p), Clearance(p, v));
    NoLess(A(p), Clearance(p, v), Clearance(p, t));
  }

  lemma AtVertex(p: Sweep, v: real)
    requires Slope(p, v) == 0.0
    ensures 4.0 * A(p) * Clearance(p, v) == -Discriminant(p)
  {
    hide A, B, C, Discriminant, Clearance, Slope;
    CompletedSlope(p, v);
    assert Square(0.0) == 0.0;
  }

  lemma NoLess(a: real, f: real, g: real)
    requires a > 0.0 && 4.0 * a * f <= 4.0 * a * g
    ensures f <= g
  {
    if g < f { MulPositive(a, f - g); }
  }

  lemma RootOfZero(sqrt: real -> real)
    requires IsSqrt(sqrt)
    ensures sqrt(0.0) == 0.0
  {
    var s := sqrt(0.0);
    assert s >= 0.0 && s * s == 0.0;
    NoSquare(s, 0.0);
  }

  lemma GrazingBound(p: Sweep)
    requires C(p) > 0.0 && A(p) > 0.0
    ensures GrazeBound(p) == RELATIVE_TOLERANCE * (Square(B(p)) + 4.0 * A(p) * C(p))
  {
    hide A, B, C;
    MulPositive(A(p), C(p));
    SquareNonNegative(B(p));
  }

  lemma Magnitude(a: real, f: real)
    requires a > 0.0
    ensures 4.0 * a * AbsReal(f) == AbsReal(4.0 * a * f)
  {
    if f > 0.0 { MulPositive(a, f); } else if f < 0.0 { MulPositive(a, -f); }
  }

  // ---------- Two moving circles ----------

  /** The place at instant `t` on the way from one point to another. */
  function PlaceAt(start: Vector2, end: Vector2, t: real): Vector2 {
    Vector2(start.x + t * (end.x - start.x), start.y + t * (end.y - start.y))
  }

  function Minus(a: Vector2, b: Vector2): Vector2 {
    Vector2(a.x - b.x, a.y - b.y)
  }

  /** The movement of one circle as seen from the other. */
  function Relative(startA: Vector2, endA: Vector2, ra: real, startB: Vector2, endB: Vector2, rb: real): Sweep {
    var start := Minus(startA, startB);
    Sweep(start, Minus(Minus(endA, endB), start), Max(ra, 0.0) + Max(rb, 0.0))
  }

  function MovingCirclesContact(sqrt: real -> real, startA: Vector2, endA: Vector2, ra: real,
                                startB: Vector2, endB: Vector2, rb: real): Option<real> {
    var start := Minus(startA, startB);
    var end := Minus(endA, endB);
    var delta := Minus(end, start);
    var radius := Max(ra, 0.0) + Max(rb, 0.0);
    if LengthSquared(start) <= Square(radius) + TIME_EPS then
      if start.x * delta.x + start.y * delta.y > 0.0 && LengthSquared(end) > LengthSquared(start) + TIME_EPS then None else Some(0.0)
    else SegmentCircleHit(sqrt, start, end, ZERO, radius)
  }

  /** By how much the centres' squared distance at `t` exceeds that of touching circles. */
  function Gap(startA: Vector2, endA: Vector2, ra: real, startB: Vector2, endB: Vector2, rb: real, t: real): real {
    LengthSquared(Minus(PlaceAt(startA, endA, t), PlaceAt(startB, endB, t))) - Square(Max(ra, 0.0) + Max(rb, 0.0))
  }

  lemma GapIsClearance(startA: Vector2, endA: Vector2, ra: real, startB: Vector2, endB: Vector2, rb: real, t: real)
    ensures Gap(startA, endA, ra, startB, endB, rb, t) == Clearance(Relative(startA, endA, ra, startB, endB, rb), t)
  {
    SameOffset(startA.x, endA.x, startB.x, endB.x, t);
    SameOffset(startA.y, endA.y, startB.y, endB.y, t);
  }

  lemma SameOffset(a: real, a': real, b: real, b': real, t: real)
    ensures (a + t * (a' - a)) - (b + t * (b' - b)) == (a - b) + t * ((a' - b') - (a - b))
  {
  }

  /**
   Two circles that start apart meet at the instant found, the first at which they touch, and do not touch if none is
   found, unless they only graze each other; two that start in contact are let go exactly if they move apart.
   */
  lemma ContactIsFirstTouch(sqrt: real -> real, startA: Vector2, endA: Vector2, ra: real, startB: Vector2, endB: Vector2, rb: real)
    requires IsSqrt(sqrt)
    ensures var hit := MovingCirclesContact(sqrt, startA, endA, ra, startB, endB, rb);
      var p := Relative(startA, endA, ra, startB, endB, rb);
      var apart := Gap(startA, endA, ra, startB, endB, rb, 0.0);
      var later := Gap(startA, endA, ra, startB, endB, rb, 1.0);
      && (apart > TIME_EPS && (A(p) == 0.0 || !Grazes(p)) ==> IsFirstTouch(p, hit))
      && (apart <= TIME_EPS ==> hit == if B(p) > 0.0 && later > apart + TIME_EPS then None else Some(0.0))
    ensures forall t :: Gap(startA, endA, ra, startB, endB, rb, t) == Clearance(Relative(startA, endA, ra, startB, endB, rb), t)
  {
    var p := Relative(startA, endA, ra, startB, endB, rb);
    forall t: real
      ensures Gap(startA, endA, ra, startB, endB, rb, t) == Clearance(p, t)
    {
      GapIsClearance(startA, endA, ra, startB, endB, rb, t);
    }
    Ends(startA, endA, ra, startB, endB, rb);
    TowardsOrigin(startA, endA, ra, startB, endB, rb);
    hide A, C, Discriminant, Grazes, Gap, Clearance, SweepHit, IsFirstTouch;
    if C(p) > TIME_EPS && (A(p) == 0.0 || !Grazes(p)) {
      HitIsFirstTouch(sqrt, p);
    }
  }

  lemma Ends(startA: Vector2, endA: Vector2, ra: real, startB: Vector2, endB: Vector2, rb: real)
    ensures var radius := Max(ra, 0.0) + Max(rb, 0.0);
      && Gap(startA, endA, ra, startB, endB, rb, 0.0) == LengthSquared(Minus(startA, startB)) - Square(radius)
      && Gap(startA, endA, ra, startB, endB, rb, 0.0) == C(Relative(startA, endA, ra, startB, endB, rb))
      && Gap(startA, endA, ra, startB, endB, rb, 1.0) == LengthSquared(Minus(endA, endB)) - Square(radius)
  {
    assert PlaceAt(startA, endA, 0.0) == startA && PlaceAt(startB, endB, 0.0) == startB;
    assert PlaceAt(startA, endA, 1.0) == endA && PlaceAt(startB, endB, 1.0) == endB;
  }

  lemma TowardsOrigin(startA: Vector2, endA: Vector2, ra: real, startB: Vector2, endB: Vector2, rb: real)
    ensures Towards(Minus(startA, startB), Minus(endA, endB), ZERO, Max(ra, 0.0) + Max(rb, 0.0))
         == Relative(startA, endA, ra, startB, endB, rb)
  {
  }

  /** Circles in contact that are let go never come closer than they start. */
  lemma LetGoMovesApart(p: Sweep, t: real)
    requires B(p) > 0.0 && t >= 0.0
    ensures Clearance(p, t) >= Clearance(p, 0.0)
  {
    hide A, B, C, Clearance;
    ClearanceIsQuadratic(p, t);
    StartClearance(p);
    LengthNonNegative(p);
    SquareNonNegative(t);
    MulNonNegative(A(p), Square(t));
    MulNonNegative(B(p), t);
  }
}

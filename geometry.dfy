/** Plane geometry shared by the simulation: world points, the Euclidean norm
    the game obtains from `Math.hypot`, `Math.sqrt` and
    `Phaser.Math.Distance.Between`, and the clamped point-to-segment distance
    used for tower placement. */
module Geometry {

  datatype Point = Point(x: real, y: real)

  /** The Euclidean norm of a displacement. It is supplied by the caller;
      IsHypot states the facts of the norm the simulation relies on. */
  type Hypot = (real, real) -> real

  ghost predicate IsHypot(hypot: Hypot)
  {
    forall dx: real, dy: real ::
      && !(hypot(dx, dy) < 0.0)
      && hypot(dx, dy) * hypot(dx, dy) == dx * dx + dy * dy
      && (dx > 0.0 || dx < 0.0 || dy > 0.0 || dy < 0.0 ==> hypot(dx, dy) > 0.0)
  }

  /** `Math.sqrt(dx * dx + dy * dy)`, the length of the vector from p to q. */
  function Dist(hypot: Hypot, p: Point, q: Point): real
  {
    hypot(q.x - p.x, q.y - p.y)
  }

  function DistSq(p: Point, q: Point): (r: real)
    ensures r >= 0.0
  {
    SquareSumPositive(q.x - p.x, q.y - p.y);
    (q.x - p.x) * (q.x - p.x) + (q.y - p.y) * (q.y - p.y)
  }

  /** Two points differ in at least one coordinate (stated with strict
      comparisons, which is how the proofs below consume it). */
  predicate Apart(p: Point, q: Point)
  {
    p.x < q.x || p.x > q.x || p.y < q.y || p.y > q.y
  }

  lemma MulPositive(x: real, y: real)
    requires x > 0.0 && y > 0.0
    ensures x * y > 0.0
  {
  }

  lemma SquarePositive(u: real)
    requires u > 0.0 || u < 0.0
    ensures u * u > 0.0
  {
    if u > 0.0 {
      MulPositive(u, u);
    } else {
      MulPositive(-u, -u);
    }
  }

  lemma SquareNonNegative(u: real)
    ensures !(u * u < 0.0)
  {
    if u > 0.0 || u < 0.0 {
      SquarePositive(u);
    }
  }

  lemma SquareSumPositive(u: real, v: real)
    ensures !(u * u + v * v < 0.0)
    ensures u > 0.0 || u < 0.0 || v > 0.0 || v < 0.0 ==> u * u + v * v > 0.0
  {
    SquareNonNegative(u);
    SquareNonNegative(v);
    if u > 0.0 || u < 0.0 {
      SquarePositive(u);
    }
    if v > 0.0 || v < 0.0 {
      SquarePositive(v);
    }
  }

  /** Squaring is strictly monotone on the non-negative reals. */
  lemma SquareMonotone(a: real, b: real)
    requires !(a < 0.0) && !(b < 0.0)
    ensures a <= b <==> a * a <= b * b
    ensures a < b <==> a * a < b * b
  {
    assert a * a - b * b == (a - b) * (a + b);
    if a < b {
      MulPositive(b - a, a + b);
    } else if a > b {
      MulPositive(a - b, a + b);
    }
  }

  /** A norm below (or up to) a non-negative bound is the same as its square
      below (or up to) the bound's square: every distance comparison in the
      game can be read on squared distances, without square roots. */
  lemma HypotCompare(hypot: Hypot, dx: real, dy: real, bound: real)
    requires IsHypot(hypot)
    requires !(bound < 0.0)
    ensures hypot(dx, dy) <= bound <==> dx * dx + dy * dy <= bound * bound
    ensures hypot(dx, dy) < bound <==> dx * dx + dy * dy < bound * bound
  {
    SquareMonotone(hypot(dx, dy), bound);
  }

  /** The length of a segment between two distinct waypoints is positive, so
      the game may divide by it. */
  lemma DistPositive(hypot: Hypot, p: Point, q: Point)
    requires IsHypot(hypot) && Apart(p, q)
    ensures Dist(hypot, p, q) > 0.0
  {
  }

  /** `Math.max(0, Math.min(1, t))` */
  function ClampUnit(t: real): (c: real)
    ensures 0.0 <= c <= 1.0
    ensures 0.0 <= t <= 1.0 ==> c == t
    ensures t < 0.0 ==> c == 0.0
    ensures t > 1.0 ==> c == 1.0
  {
    var m := if 1.0 < t then 1.0 else t;
    if 0.0 > m then 0.0 else m
  }

  /** The point a + t·(b − a). */
  function Lerp(a: Point, b: Point, t: real): Point
  {
    Point(a.x + t * (b.x - a.x), a.y + t * (b.y - a.y))
  }

  /** The projection parameter of p onto segment [a, b], clamped to [0, 1];
      zero for a segment of length zero. */
  function SegmentParam(p: Point, a: Point, b: Point): (t: real)
    ensures 0.0 <= t <= 1.0
    ensures DistSq(a, b) == 0.0 ==> t == 0.0
  {
    var dx := b.x - a.x;
    var dy := b.y - a.y;
    var len2 := dx * dx + dy * dy;
    if len2 == 0.0 then 0.0
    else ClampUnit(((p.x - a.x) * dx + (p.y - a.y) * dy) / len2)
  }

  /** The point of segment [a, b] that `distanceToLineSegment` measures to. */
  function ClosestPoint(p: Point, a: Point, b: Point): Point
  {
    Lerp(a, b, SegmentParam(p, a, b))
  }

  /** The squared distance from p to the measured point of segment [a, b]. */
  function SegmentDistSq(p: Point, a: Point, b: Point): real
  {
    DistSq(ClosestPoint(p, a, b), p)
  }

  /** `distanceToLineSegment(px, py, x1, y1, x2, y2)`: for a zero-length segment
      the norm of p − a, otherwise the norm of p minus its clamped projection
      a + t·(b − a). Either way it is the distance from p to a point of the
      segment whose parameter lies in [0, 1]. */
  function DistanceToLineSegment(hypot: Hypot, p: Point, a: Point, b: Point): (d: real)
    ensures d == Dist(hypot, ClosestPoint(p, a, b), p)
  {
    var dx := b.x - a.x;
    var dy := b.y - a.y;
    var len2 := dx * dx + dy * dy;
    if len2 == 0.0 then
      DegenerateSegment(p, a, b);
      hypot(p.x - a.x, p.y - a.y)
    else
      var c := ClosestPoint(p, a, b);
      hypot(p.x - c.x, p.y - c.y)
  }

  /** Under a true norm the measured distance is non-negative and squares to
      the squared distance from p to the measured point of the segment. */
  lemma DistanceToLineSegmentSquare(hypot: Hypot, p: Point, a: Point, b: Point)
    requires IsHypot(hypot)
    ensures var d := DistanceToLineSegment(hypot, p, a, b);
      !(d < 0.0) && d * d == SegmentDistSq(p, a, b)
  {
    var c := ClosestPoint(p, a, b);
    HypotSquare(hypot, p.x - c.x, p.y - c.y);
  }

  /** The norm is non-negative and squares to the sum of squares. */
  lemma HypotSquare(hypot: Hypot, u: real, v: real)
    requires IsHypot(hypot)
    ensures !(hypot(u, v) < 0.0) && hypot(u, v) * hypot(u, v) == u * u + v * v
  {
  }

  /** On a segment of length zero the measured point is its start. */
  lemma DegenerateSegment(p: Point, a: Point, b: Point)
    requires (b.x - a.x) * (b.x - a.x) + (b.y - a.y) * (b.y - a.y) == 0.0
    ensures ClosestPoint(p, a, b) == a
  {
    assert SegmentParam(p, a, b) == 0.0;
  }

  /** The dot product of the displacements q1 − p1 and q2 − p2. */
  function Dot(p1: Point, q1: Point, p2: Point, q2: Point): real
  {
    (q1.x - p1.x) * (q2.x - p2.x) + (q1.y - p1.y) * (q2.y - p2.y)
  }

  /** Where the clamped projection lands on a segment of positive length:
      strictly inside, p − c is perpendicular to the segment; clamped to the
      start, p lies behind a; clamped to the end, p lies beyond b. These are
      the conditions that make c the point of the segment nearest to p. */
  lemma SegmentParamProjection(p: Point, a: Point, b: Point)
    requires DistSq(a, b) > 0.0
    ensures var t := SegmentParam(p, a, b);
      && (0.0 < t < 1.0 ==> Dot(ClosestPoint(p, a, b), p, a, b) == 0.0)
      && (t == 0.0 ==> !(Dot(a, p, a, b) > 0.0))
      && (t == 1.0 ==> !(Dot(b, p, a, b) < 0.0))
  {
    ProjectionWithLength(p, a, b, DistSq(a, b));
  }

  lemma ProjectionWithLength(p: Point, a: Point, b: Point, len2: real)
    requires len2 == DistSq(a, b) && len2 > 0.0
    ensures var t := SegmentParam(p, a, b);
      && (0.0 < t < 1.0 ==> Dot(ClosestPoint(p, a, b), p, a, b) == 0.0)
      && (t == 0.0 ==> !(Dot(a, p, a, b) > 0.0))
      && (t == 1.0 ==> !(Dot(b, p, a, b) < 0.0))
  {
    var u := Dot(a, p, a, b);
    var raw := u / len2;
    var t := SegmentParam(p, a, b);
    assert t == ClampUnit(raw);
    assert raw * len2 == u;
    var c := ClosestPoint(p, a, b);
    assert Dot(c, p, a, b) == u - t * len2;
    if u > 0.0 {
      MulPositive(u, 1.0 / len2);
      assert raw > 0.0;
    }
    if t == 1.0 {
      assert Dot(b, p, a, b) == u - len2;
    }
  }

  /** `(speed * delta) / 1000`: the distance covered in `delta` milliseconds
      at `speed` units per second. */
  function MoveDistance(speed: real, delta: real): real
  {
    speed * delta / 1000.0
  }

  /** One step of `pos += (dir / distance) * move` towards `goal`. */
  function StepToward(pos: Point, goal: Point, distance: real, move: real): Point
    requires distance != 0.0
  {
    var dx := goal.x - pos.x;
    var dy := goal.y - pos.y;
    Point(pos.x + (dx / distance) * move, pos.y + (dy / distance) * move)
  }

  /** Scaling a displacement of norm d by r, where r · d == m, gives a
      displacement of squared length m². */
  lemma ScaledSquare(dx: real, dy: real, d: real, r: real, m: real, sx: real, sy: real)
    requires r * d == m && d * d == dx * dx + dy * dy && sx == dx * r && sy == dy * r
    ensures sx * sx + sy * sy == m * m
  {
    assert sx * sx + sy * sy == (r * r) * (dx * dx + dy * dy);
    assert (r * r) * (dx * dx + dy * dy) == (r * r) * (d * d);
    assert (r * r) * (d * d) == (r * d) * (r * d);
  }

  /** `pos += (goal − pos) / distance · move` with `distance` the norm of
      goal − pos: the step covers exactly `move` (its squared length is
      move²), and for a non-negative move it points towards the goal. */
  lemma StepTowardMoves(hypot: Hypot, pos: Point, goal: Point, move: real)
    requires IsHypot(hypot) && Dist(hypot, pos, goal) > 0.0
    ensures var distance := Dist(hypot, pos, goal);
      var next := StepToward(pos, goal, distance, move);
      && DistSq(pos, next) == move * move
      && next.x - pos.x == (move / distance) * (goal.x - pos.x)
      && next.y - pos.y == (move / distance) * (goal.y - pos.y)
      && (!(move < 0.0) ==> !(move / distance < 0.0))
  {
    HypotSquare(hypot, goal.x - pos.x, goal.y - pos.y);
    var d := Dist(hypot, pos, goal);
    StepDirection(pos, goal, d, move);
    StepLength(pos, goal, d, move);
    if !(move < 0.0) {
      QuotientSign(move, d);
    }
  }

  /** The step is the displacement to the goal scaled by move / d. */
  lemma StepDirection(pos: Point, goal: Point, d: real, move: real)
    requires d > 0.0
    ensures var next := StepToward(pos, goal, d, move);
      && next.x - pos.x == (move / d) * (goal.x - pos.x)
      && next.y - pos.y == (move / d) * (goal.y - pos.y)
  {
  }

  lemma QuotientSign(move: real, d: real)
    requires d > 0.0 && !(move < 0.0)
    ensures !(move / d < 0.0)
  {
  }

  /** With d the norm of goal − pos, the step's squared length is move². */
  lemma StepLength(pos: Point, goal: Point, d: real, move: real)
    requires d > 0.0 && d * d == (goal.x - pos.x) * (goal.x - pos.x) + (goal.y - pos.y) * (goal.y - pos.y)
    ensures DistSq(pos, StepToward(pos, goal, d, move)) == move * move
  {
    var next := StepToward(pos, goal, d, move);
    StepDirection(pos, goal, d, move);
    ScaledSquare(goal.x - pos.x, goal.y - pos.y, d, move / d, move, next.x - pos.x, next.y - pos.y);
  }
}

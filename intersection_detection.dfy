/**
 * The geometry kernel of IntersectionDetection.c: orientation of three points,
 * segment intersection, point-in-parallelogram, and the four-way classifier
 * `intersect` for one pair of moving segments.
 *
 * Doubles are exact reals here; every comparison against zero in the source is
 * an exact comparison, so the branch structure is the source's.
 */
module IntersectionDetection {
  import opened Lines

  datatype IntersectionType = NoIntersection | L1WithL2 | L2WithL1 | AlreadyIntersected

  /** crossProduct(x1, y1, x2, y2) */
  function CrossProduct(x1: real, y1: real, x2: real, y2: real): real
  {
    x1 * y2 - x2 * y1
  }

  /** The cross product of two vectors, as `crossProduct` computes it. */
  function Cross(a: Vec, b: Vec): real
  {
    CrossProduct(a.x, a.y, b.x, b.y)
  }

  /** direction(pi, pj, pk): the orientation of pk against the line through pi and pj. */
  function Direction(pi: Vec, pj: Vec, pk: Vec): real
  {
    CrossProduct(pk.x - pi.x, pk.y - pi.y, pj.x - pi.x, pj.y - pi.y)
  }

  /** onSegment(pi, pj, pk): pk lies in the bounding box of the segment (pi, pj). */
  predicate OnSegment(pi: Vec, pj: Vec, pk: Vec)
  {
    ((pi.x <= pk.x && pk.x <= pj.x) || (pj.x <= pk.x && pk.x <= pi.x))
    && ((pi.y <= pk.y && pk.y <= pj.y) || (pj.y <= pk.y && pk.y <= pi.y))
  }

  /** Two orientations of strictly opposite sign. */
  predicate Straddle(a: real, b: real)
  {
    (a > 0.0 && b < 0.0) || (a < 0.0 && b > 0.0)
  }

  /** intersectLines(p1, p2, p3, p4): do the segments (p1, p2) and (p3, p4) meet? */
  predicate IntersectLines(p1: Vec, p2: Vec, p3: Vec, p4: Vec)
  {
    var d1 := Direction(p3, p4, p1);
    var d2 := Direction(p3, p4, p2);
    var d3 := Direction(p1, p2, p3);
    var d4 := Direction(p1, p2, p4);
    if Straddle(d1, d2) && Straddle(d3, d4) then true
    else if d1 == 0.0 && OnSegment(p3, p4, p1) then true
    else if d2 == 0.0 && OnSegment(p3, p4, p2) then true
    else if d3 == 0.0 && OnSegment(p1, p2, p3) then true
    else if d4 == 0.0 && OnSegment(p1, p2, p4) then true
    else false
  }

  /** pointInParallelogram(point, p1, p2, p3, p4): strictly between both pairs of opposite sides. */
  predicate PointInParallelogram(point: Vec, p1: Vec, p2: Vec, p3: Vec, p4: Vec)
  {
    var d1 := Direction(p1, p2, point);
    var d2 := Direction(p3, p4, point);
    var d3 := Direction(p1, p3, point);
    var d4 := Direction(p2, p4, point);
    Straddle(d1, d2) && Straddle(d3, d4)
  }

  /** The endpoints of l2 moved by the relative velocity over `time`. */
  function SweptP1(l1: Line, l2: Line, time: real): Vec
  {
    Add(l2.p1, Multiply(Subtract(l2.velocity, l1.velocity), time))
  }

  function SweptP2(l1: Line, l2: Line, time: real): Vec
  {
    Add(l2.p2, Multiply(Subtract(l2.velocity, l1.velocity), time))
  }

  /** The fast reject of `intersect`: l1's box misses the box of l2's swept parallelogram. */
  predicate BoxesDisjoint(l1: Line, l2: Line, time: real)
  {
    var p1 := SweptP1(l1, l2, time);
    var p2 := SweptP2(l1, l2, time);
    var l2TlX := Min(Min(p1.x, p2.x), Min(l2.p1.x, l2.p2.x));
    var l2TlY := Min(Min(p1.y, p2.y), Min(l2.p1.y, l2.p2.y));
    var l2BrX := Max(Max(p1.x, p2.x), Max(l2.p1.x, l2.p2.x));
    var l2BrY := Max(Max(p1.y, p2.y), Max(l2.p1.y, l2.p2.y));
    var l1TlX := Min(l1.p1.x, l1.p2.x);
    var l1TlY := Min(l1.p1.y, l1.p2.y);
    var l1BrX := Max(l1.p1.x, l1.p2.x);
    var l1BrY := Max(l1.p1.y, l1.p2.y);
    l1BrX < l2TlX || l1TlX > l2BrX || l1BrY < l2TlY || l1TlY > l2BrY
  }

  /** The segments meet at the start of the step. */
  predicate AlreadyMeet(l1: Line, l2: Line)
  {
    IntersectLines(l1.p1, l1.p2, l2.p1, l2.p2)
  }

  /** l1 crosses the rail traced by l2's first endpoint. */
  predicate TopCrossed(l1: Line, l2: Line, time: real)
  {
    IntersectLines(l1.p1, l1.p2, SweptP1(l1, l2, time), l2.p1)
  }

  /** l1 crosses the rail traced by l2's second endpoint. */
  predicate BottomCrossed(l1: Line, l2: Line, time: real)
  {
    IntersectLines(l1.p1, l1.p2, SweptP2(l1, l2, time), l2.p2)
  }

  /** l1 crosses l2's position at the end of the step. */
  predicate FarCrossed(l1: Line, l2: Line, time: real)
  {
    IntersectLines(l1.p1, l1.p2, SweptP1(l1, l2, time), SweptP2(l1, l2, time))
  }

  function BoolToInt(b: bool): int { if b then 1 else 0 }

  /** num_line_intersections */
  function Crossings(l1: Line, l2: Line, time: real): int
  {
    BoolToInt(TopCrossed(l1, l2, time)) + BoolToInt(BottomCrossed(l1, l2, time))
    + BoolToInt(FarCrossed(l1, l2, time))
  }

  /** Both endpoints of l1 lie strictly inside l2's swept parallelogram. */
  predicate Enclosed(l1: Line, l2: Line, time: real)
  {
    var p1 := SweptP1(l1, l2, time);
    var p2 := SweptP2(l1, l2, time);
    PointInParallelogram(l1.p1, l2.p1, l2.p2, p1, p2)
    && PointInParallelogram(l1.p2, l2.p1, l2.p2, p1, p2)
  }

  /**
   * intersect(l1, l2, time). `angleOf` stands for Vec_angle, whose definition is
   * not part of this model; only the sign of its result is used.
   */
  function Intersect(l1: Line, l2: Line, time: real, angleOf: (Vec, Vec) -> real): IntersectionType
    requires CompareLines(l1, l2) < 0
  {
    if BoxesDisjoint(l1, l2, time) then NoIntersection
    else if AlreadyMeet(l1, l2) then AlreadyIntersected
    else if Crossings(l1, l2, time) == 2 then L2WithL1
    else if Enclosed(l1, l2, time) then L1WithL2
    else if Crossings(l1, l2, time) == 0 then NoIntersection
    else
      var angle := angleOf(RelativeVector(l1), RelativeVector(l2));
      if TopCrossed(l1, l2, time) then (if angle < 0.0 then L2WithL1 else L1WithL2)
      else if BottomCrossed(l1, l2, time) then (if angle > 0.0 then L2WithL1 else L1WithL2)
      else L1WithL2
  }

  // ---------------------------------------------------------------------------
  // Orientation

  lemma CrossProductAntisymmetric(x1: real, y1: real, x2: real, y2: real)
    ensures CrossProduct(x1, y1, x2, y2) == -CrossProduct(x2, y2, x1, y1)
  {
  }

  lemma DirectionAtEndpoints(pi: Vec, pj: Vec)
    ensures Direction(pi, pj, pi) == 0.0 && Direction(pi, pj, pj) == 0.0
  {
  }

  lemma DirectionSwap(pi: Vec, pj: Vec, pk: Vec)
    ensures Direction(pj, pi, pk) == -Direction(pi, pj, pk)
  {
    var a := Subtract(pk, pi);
    var b := Subtract(pj, pi);
    assert Direction(pj, pi, pk) == (a.x - b.x) * (-b.y) - (-b.x) * (a.y - b.y);
  }

  // ---------------------------------------------------------------------------
  // onSegment

  lemma OnSegmentSymmetric(pi: Vec, pj: Vec, pk: Vec)
    ensures OnSegment(pi, pj, pk) == OnSegment(pj, pi, pk)
  {
  }

  lemma OnSegmentEndpoints(pi: Vec, pj: Vec)
    ensures OnSegment(pi, pj, pi) && OnSegment(pi, pj, pj)
  {
  }

  // ---------------------------------------------------------------------------
  // intersectLines

  lemma IntersectLinesSwap(p1: Vec, p2: Vec, p3: Vec, p4: Vec)
    ensures IntersectLines(p1, p2, p3, p4) == IntersectLines(p3, p4, p1, p2)
  {
  }

  lemma IntersectLinesReverse(p1: Vec, p2: Vec, p3: Vec, p4: Vec)
    ensures IntersectLines(p2, p1, p3, p4) == IntersectLines(p1, p2, p3, p4)
    ensures IntersectLines(p1, p2, p4, p3) == IntersectLines(p1, p2, p3, p4)
  {
    DirectionSwap(p1, p2, p3);
    DirectionSwap(p1, p2, p4);
    DirectionSwap(p3, p4, p1);
    DirectionSwap(p3, p4, p2);
  }

  lemma IntersectLinesSharedEndpoint(p1: Vec, p2: Vec, p3: Vec, p4: Vec)
    requires p1 == p3 || p1 == p4 || p2 == p3 || p2 == p4
    ensures IntersectLines(p1, p2, p3, p4)
  {
    DirectionAtEndpoints(p3, p4);
    OnSegmentEndpoints(p3, p4);
  }

  /** A product of two non-negative reals is non-negative. */
  lemma MulNonNegative(a: real, b: real)
    requires 0.0 <= a && 0.0 <= b
    ensures 0.0 <= a * b
  {
  }

  /** Linear interpolation between a and b stays between them. */
  lemma Interpolate(a: real, b: real, t: real)
    requires 0.0 <= t <= 1.0
    ensures Min(a, b) <= a + t * (b - a) <= Max(a, b)
  {
    if a <= b {
      MulNonNegative(t, b - a);
      MulNonNegative(1.0 - t, b - a);
    } else {
      MulNonNegative(t, a - b);
      MulNonNegative(1.0 - t, a - b);
    }
  }

  /** A quotient of two reals of the same sign, the first no larger in size, lies in [0, 1]. */
  lemma QuotientInUnit(a: real, b: real)
    requires (0.0 <= a <= b && 0.0 < b) || (b <= a <= 0.0 && b < 0.0)
    ensures 0.0 <= a / b <= 1.0
  {
  }

  /** Cross products are linear in their first argument. */
  lemma CrossDifference(a: Vec, b: Vec, c: Vec, v: Vec)
    ensures Cross(Subtract(a, b), v) == Cross(Subtract(a, c), v) - Cross(Subtract(b, c), v)
  {
  }

  /** A vector with zero cross product against two independent vectors is zero. */
  lemma CrossZeroAgainstIndependent(w: Vec, u: Vec, v: Vec)
    requires Cross(w, u) == 0.0 && Cross(w, v) == 0.0 && Cross(u, v) != 0.0
    ensures w.x == 0.0 && w.y == 0.0
  {
    assert v.x * Cross(w, u) - u.x * Cross(w, v) == -w.x * Cross(u, v);
    assert v.y * Cross(w, u) - u.y * Cross(w, v) == -w.y * Cross(u, v);
  }

  /**
   * If p1 and p2 lie strictly on opposite sides of the line through p3 and p4,
   * some point between p1 and p2 lies on that line.
   */
  lemma StraddlePoint(p1: Vec, p2: Vec, p3: Vec, p4: Vec) returns (t: real, x: Vec)
    requires Straddle(Direction(p3, p4, p1), Direction(p3, p4, p2))
    ensures 0.0 <= t <= 1.0
    ensures x == Vec(p1.x + t * (p2.x - p1.x), p1.y + t * (p2.y - p1.y))
    ensures Cross(Subtract(x, p3), Subtract(p4, p3)) == 0.0
    ensures Cross(Subtract(x, p1), Subtract(p2, p1)) == 0.0
    ensures Cross(Subtract(p2, p1), Subtract(p4, p3)) != 0.0
  {
    var d1 := Direction(p3, p4, p1);
    var d2 := Direction(p3, p4, p2);
    var u := Subtract(p2, p1);
    var v := Subtract(p4, p3);
    var den := d1 - d2;
    t := d1 / den;
    QuotientInUnit(d1, den);
    x := Vec(p1.x + t * u.x, p1.y + t * u.y);
    assert Cross(u, v) == d2 - d1;
    assert Cross(Subtract(x, p3), v) == d1 + t * Cross(u, v);
    assert Cross(Subtract(x, p1), u) == t * Cross(u, u);
  }

  /** Two segments whose lines separate each other's endpoints share a point. */
  lemma StraddleCommonPoint(p1: Vec, p2: Vec, p3: Vec, p4: Vec) returns (t: real, s: real)
    requires Straddle(Direction(p3, p4, p1), Direction(p3, p4, p2))
    requires Straddle(Direction(p1, p2, p3), Direction(p1, p2, p4))
    ensures 0.0 <= t <= 1.0 && 0.0 <= s <= 1.0
    ensures p1.x + t * (p2.x - p1.x) == p3.x + s * (p4.x - p3.x)
    ensures p1.y + t * (p2.y - p1.y) == p3.y + s * (p4.y - p3.y)
  {
    var x, y;
    t, x := StraddlePoint(p1, p2, p3, p4);
    s, y := StraddlePoint(p3, p4, p1, p2);
    var u := Subtract(p2, p1);
    var v := Subtract(p4, p3);
    var w := Subtract(x, y);
    CrossDifference(x, y, p3, v);
    CrossDifference(x, y, p1, u);
    CrossZeroAgainstIndependent(w, u, v);
  }

  /** Two ranges that both contain an interpolated common value overlap. */
  lemma SharedInterpolant(a1: real, a2: real, b1: real, b2: real, t: real, s: real)
    requires 0.0 <= t <= 1.0 && 0.0 <= s <= 1.0
    requires a1 + t * (a2 - a1) == b1 + s * (b2 - b1)
    ensures Min(a1, a2) <= Max(b1, b2) && Min(b1, b2) <= Max(a1, a2)
  {
    Interpolate(a1, a2, t);
    Interpolate(b1, b2, s);
    RangesShareValue(a1, a2, b1, b2, a1 + t * (a2 - a1));
  }

  /** Segments that straddle each other's lines have overlapping bounding boxes. */
  lemma StraddleBoxesOverlap(p1: Vec, p2: Vec, p3: Vec, p4: Vec)
    requires Straddle(Direction(p3, p4, p1), Direction(p3, p4, p2))
    requires Straddle(Direction(p1, p2, p3), Direction(p1, p2, p4))
    ensures Min(p1.x, p2.x) <= Max(p3.x, p4.x) && Min(p3.x, p4.x) <= Max(p1.x, p2.x)
    ensures Min(p1.y, p2.y) <= Max(p3.y, p4.y) && Min(p3.y, p4.y) <= Max(p1.y, p2.y)
  {
    var t, s := StraddleCommonPoint(p1, p2, p3, p4);
    SharedInterpolant(p1.x, p2.x, p3.x, p4.x, t, s);
    SharedInterpolant(p1.y, p2.y, p3.y, p4.y, t, s);
  }

  lemma RangesShareValue(a: real, b: real, c: real, d: real, m: real)
    requires Min(a, b) <= m <= Max(a, b) && Min(c, d) <= m <= Max(c, d)
    ensures Min(a, b) <= Max(c, d) && Min(c, d) <= Max(a, b)
  {
  }

  /** Segments that intersectLines accepts have overlapping bounding boxes. */
  lemma IntersectLinesBoxesOverlap(p1: Vec, p2: Vec, p3: Vec, p4: Vec)
    requires IntersectLines(p1, p2, p3, p4)
    ensures Min(p1.x, p2.x) <= Max(p3.x, p4.x) && Min(p3.x, p4.x) <= Max(p1.x, p2.x)
    ensures Min(p1.y, p2.y) <= Max(p3.y, p4.y) && Min(p3.y, p4.y) <= Max(p1.y, p2.y)
  {
    if Straddle(Direction(p3, p4, p1), Direction(p3, p4, p2))
       && Straddle(Direction(p1, p2, p3), Direction(p1, p2, p4)) {
      StraddleBoxesOverlap(p1, p2, p3, p4);
    }
  }

  // ---------------------------------------------------------------------------
  // pointInParallelogram

  lemma PointOnSideLineNotInside(point: Vec, p1: Vec, p2: Vec, p3: Vec, p4: Vec)
    requires Direction(p1, p2, point) == 0.0 || Direction(p3, p4, point) == 0.0
          || Direction(p1, p3, point) == 0.0 || Direction(p2, p4, point) == 0.0
    ensures !PointInParallelogram(point, p1, p2, p3, p4)
  {
  }

  lemma CornersNotInside(p1: Vec, p2: Vec, p3: Vec, p4: Vec)
    ensures !PointInParallelogram(p1, p1, p2, p3, p4)
    ensures !PointInParallelogram(p2, p1, p2, p3, p4)
    ensures !PointInParallelogram(p3, p1, p2, p3, p4)
    ensures !PointInParallelogram(p4, p1, p2, p3, p4)
  {
    DirectionAtEndpoints(p1, p2);
    DirectionAtEndpoints(p3, p4);
  }

  // ---------------------------------------------------------------------------
  // intersect

  /** l2's segment box lies inside the box of its swept parallelogram, and so do the swept endpoints. */
  lemma SegmentMeetsBoxes(l1: Line, l2: Line, time: real, q1: Vec, q2: Vec)
    requires q1 in {l2.p1, l2.p2, SweptP1(l1, l2, time), SweptP2(l1, l2, time)}
    requires q2 in {l2.p1, l2.p2, SweptP1(l1, l2, time), SweptP2(l1, l2, time)}
    requires IntersectLines(l1.p1, l1.p2, q1, q2)
    ensures !BoxesDisjoint(l1, l2, time)
  {
    IntersectLinesBoxesOverlap(l1.p1, l1.p2, q1, q2);
  }

  /** intersect reports ALREADY_INTERSECTED exactly when the segments meet at the start of the step. */
  lemma IntersectAlreadyIff(l1: Line, l2: Line, time: real, angleOf: (Vec, Vec) -> real)
    requires CompareLines(l1, l2) < 0
    ensures Intersect(l1, l2, time, angleOf) == AlreadyIntersected <==> AlreadyMeet(l1, l2)
  {
    if AlreadyMeet(l1, l2) {
      SegmentMeetsBoxes(l1, l2, time, l2.p1, l2.p2);
    }
  }

  lemma IntersectDisjointBoxes(l1: Line, l2: Line, time: real, angleOf: (Vec, Vec) -> real)
    requires CompareLines(l1, l2) < 0
    requires BoxesDisjoint(l1, l2, time)
    ensures Intersect(l1, l2, time, angleOf) == NoIntersection
  {
  }

  /** Some edge of the swept parallelogram is crossed, so the fast reject cannot fire. */
  lemma CrossingDefeatsReject(l1: Line, l2: Line, time: real)
    requires Crossings(l1, l2, time) > 0
    ensures !BoxesDisjoint(l1, l2, time)
  {
    var p1 := SweptP1(l1, l2, time);
    var p2 := SweptP2(l1, l2, time);
    if TopCrossed(l1, l2, time) {
      SegmentMeetsBoxes(l1, l2, time, p1, l2.p1);
    } else if BottomCrossed(l1, l2, time) {
      SegmentMeetsBoxes(l1, l2, time, p2, l2.p2);
    } else {
      SegmentMeetsBoxes(l1, l2, time, p1, p2);
    }
  }

  /** Exactly two edge crossings: l2 sweeps across l1. */
  lemma IntersectTwoCrossings(l1: Line, l2: Line, time: real, angleOf: (Vec, Vec) -> real)
    requires CompareLines(l1, l2) < 0
    requires !AlreadyMeet(l1, l2) && Crossings(l1, l2, time) == 2
    ensures Intersect(l1, l2, time, angleOf) == L2WithL1
  {
    CrossingDefeatsReject(l1, l2, time);
  }

  /** No edge crossing: l1 is reported (as L1_WITH_L2) exactly when it lies inside the sweep. */
  lemma IntersectNoCrossing(l1: Line, l2: Line, time: real, angleOf: (Vec, Vec) -> real)
    requires CompareLines(l1, l2) < 0
    requires !AlreadyMeet(l1, l2) && Crossings(l1, l2, time) == 0
    ensures Intersect(l1, l2, time, angleOf) in {NoIntersection, L1WithL2}
    ensures !BoxesDisjoint(l1, l2, time) ==>
              (Intersect(l1, l2, time, angleOf) == L1WithL2 <==> Enclosed(l1, l2, time))
  {
  }

  /** One edge crossing: never NO_INTERSECTION; the tag follows the crossed rail and the angle's sign. */
  lemma IntersectOneCrossing(l1: Line, l2: Line, time: real, angleOf: (Vec, Vec) -> real)
    requires CompareLines(l1, l2) < 0
    requires !AlreadyMeet(l1, l2) && Crossings(l1, l2, time) == 1
    ensures Intersect(l1, l2, time, angleOf) in {L1WithL2, L2WithL1}
    ensures !Enclosed(l1, l2, time) ==>
      var angle := angleOf(RelativeVector(l1), RelativeVector(l2));
      var r := Intersect(l1, l2, time, angleOf);
      && (TopCrossed(l1, l2, time) ==> (r == L2WithL1 <==> angle < 0.0))
      && (BottomCrossed(l1, l2, time) ==> (r == L2WithL1 <==> angle > 0.0))
      && (FarCrossed(l1, l2, time) ==> r == L1WithL2)
    ensures Enclosed(l1, l2, time) ==> Intersect(l1, l2, time, angleOf) == L1WithL2
  {
    CrossingDefeatsReject(l1, l2, time);
  }

  /** A rail collapsed onto an endpoint of l2 is crossed only where l1 already touches l2. */
  lemma CollapsedRail(l1: Line, l2: Line, q: Vec)
    requires q == l2.p1 || q == l2.p2
    requires IntersectLines(l1.p1, l1.p2, q, q)
    ensures AlreadyMeet(l1, l2)
  {
    DirectionAtEndpoints(q, q);
    assert OnSegment(l1.p1, l1.p2, q) && Direction(l1.p1, l1.p2, q) == 0.0;
  }

  /** A parallelogram collapsed onto one segment has no strict interior. */
  lemma CollapsedParallelogram(point: Vec, p1: Vec, p2: Vec)
    ensures !PointInParallelogram(point, p1, p2, p1, p2)
  {
  }

  /**
   * Without relative motion the parallelogram collapses onto l2: intersect reports
   * ALREADY_INTERSECTED for segments that meet and NO_INTERSECTION otherwise.
   */
  lemma IntersectWithoutRelativeMotion(l1: Line, l2: Line, time: real, angleOf: (Vec, Vec) -> real)
    requires CompareLines(l1, l2) < 0
    requires l1.velocity == l2.velocity || time == 0.0
    ensures Intersect(l1, l2, time, angleOf) ==
              if AlreadyMeet(l1, l2) then AlreadyIntersected else NoIntersection
  {
    var p1 := SweptP1(l1, l2, time);
    var p2 := SweptP2(l1, l2, time);
    assert p1 == l2.p1 && p2 == l2.p2;
    if IntersectLines(l1.p1, l1.p2, l2.p1, l2.p1) {
      CollapsedRail(l1, l2, l2.p1);
    }
    if IntersectLines(l1.p1, l1.p2, l2.p2, l2.p2) {
      CollapsedRail(l1, l2, l2.p2);
    }
    CollapsedParallelogram(l1.p1, l2.p1, l2.p2);
    if AlreadyMeet(l1, l2) {
      IntersectAlreadyIff(l1, l2, time, angleOf);
    }
  }
}

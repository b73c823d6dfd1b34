/**
 * One curvature-affine piece of a limb profile (ClothoidSegment): a straight
 * line, a circular arc or a clothoid, depending on how the curvature varies.
 *
 * The segment keeps the fields of the source class: the start position
 * (x0, y0), the arc-length domain [s0, s1] and three coefficients a, b, c of
 * the tangent angle, read as
 *   angle(s)     = a + b*(s - s0) + c*(s - s0)^2
 *   curvature(s) = b + 2*c*(s - s0)
 * so that a is the start angle, b the start curvature and 2*c the rate at
 * which the curvature changes.
 */
module Clothoid {
  import opened Errors

  /** A location on the curve: arc length, position and tangent angle. */
  datatype Pose = Pose(s: real, x: real, y: real, phi: real)

  /** Curvature, angle and position at one arc length (CurvePoint). */
  datatype CurvePoint = CurvePoint(k: real, phi: real, x: real, y: real)

  /**
   * The displacement (dx, dy) reached after travelling the arc length ds from
   * the start of a piece whose angle polynomial has coefficients (a, b, c).
   * The source evaluates it with Fresnel integrals in floating point; here it
   * is a parameter of every position query.
   */
  type PositionIntegral = (real, real, real, real) -> (real, real)

  /** The only property of the integral the model relies on: no travel, no displacement. */
  ghost predicate StartsAtOrigin(F: PositionIntegral) {
    forall a, b, c :: F(a, b, c, 0.0) == (0.0, 0.0)
  }

  datatype Segment = Segment(x0: real, y0: real, s0: real, s1: real, a: real, b: real, c: real) {

    /** A built segment always has a positive length. */
    predicate Valid() {
      s0 < s1
    }

    function Length(): real {
      s1 - s0
    }

    function Curvature(s: real): real {
      b + 2.0 * c * (s - s0)
    }

    function Angle(s: real): real {
      a + b * (s - s0) + c * (s - s0) * (s - s0)
    }

    function Position(F: PositionIntegral, s: real): (real, real) {
      var d := F(a, b, c, s - s0);
      (x0 + d.0, y0 + d.1)
    }

    function PointAt(F: PositionIntegral, s: real): CurvePoint {
      var p := Position(F, s);
      CurvePoint(Curvature(s), Angle(s), p.0, p.1)
    }

    function StartPose(): Pose {
      Pose(s0, x0, y0, a)
    }

    /** The pose the next segment of a chain starts from. */
    function EndPose(F: PositionIntegral): Pose {
      var p := Position(F, s1);
      Pose(s1, p.0, p.1, Angle(s1))
    }
  }

  /**
   * The segment kinds of a profile (ProfileCurve.hpp:4-9). A curvature-affine
   * segment is one of the first three; splines are not part of this model.
   */
  datatype SegmentType = Line | Arc | Spiral | Spline

  /** A segment is a line when its curvature is zero, an arc when it is constant, a spiral otherwise. */
  function ShapeOf(seg: Segment): (t: SegmentType)
    ensures t != Spline
    ensures t == Line <==> (forall s :: seg.Curvature(s) == 0.0)
    ensures t == Arc <==> ((forall s, u :: seg.Curvature(s) == seg.Curvature(u)) && seg.b != 0.0)
  {
    CurvatureConstantIff(seg);
    if seg.b == 0.0 && seg.c == 0.0 then Line
    else if seg.c == 0.0 then Arc
    else Spiral
  }

  lemma CurvatureConstantIff(seg: Segment)
    ensures (forall s, u :: seg.Curvature(s) == seg.Curvature(u)) <==> seg.c == 0.0
    ensures (forall s :: seg.Curvature(s) == 0.0) <==> (seg.b == 0.0 && seg.c == 0.0)
  {
    assert seg.Curvature(seg.s0) == seg.b by {
      assert seg.s0 - seg.s0 == 0.0;
    }
    if seg.c != 0.0 {
      assert seg.Curvature(seg.s0 + 1.0) - seg.Curvature(seg.s0) == 2.0 * seg.c;
    }
  }

  /**
   * The raw constructor: a segment of length l from `start` whose curvature
   * runs from k0 to k1. A length that is not positive is degenerate.
   */
  function FromLength(start: Pose, l: real, k0: real, k1: real): (r: Result<Segment>)
    ensures r.Success? <==> l > 0.0
    ensures r.Failure? ==> r.error == DegenerateSegment
    ensures r.Success? ==> var seg := r.value;
      && seg.Valid()
      && seg.s0 == start.s && seg.Length() == l
      && seg.Curvature(seg.s0) == k0 && seg.Curvature(seg.s1) == k1
      && seg.StartPose() == start
  {
    if l <= 0.0 then Failure(DegenerateSegment)
    else Success(Make(start, l, k0, k1))
  }

  /** The segment FromLength builds once the length has been checked. */
  function Make(start: Pose, l: real, k0: real, k1: real): (seg: Segment)
    requires l > 0.0
    ensures seg.Valid() && seg.s0 == start.s && seg.s1 == start.s + l
    ensures seg.StartPose() == start
    ensures seg.Curvature(seg.s0) == k0 && seg.Curvature(seg.s1) == k1
  {
    var c := (k1 - k0) / (2.0 * l);
    var seg := Segment(start.x, start.y, start.s, start.s + l, start.phi, k0, c);
    assert 2.0 * c * l == k1 - k0;
    assert seg.Curvature(seg.s1) == k0 + 2.0 * c * l;
    seg
  }

  /**
   * Between its endpoints the curvature is the linear interpolation of the
   * end curvatures, weighted by the distance to the other end.
   */
  lemma CurvatureInterpolates(start: Pose, l: real, k0: real, k1: real, s: real)
    requires l > 0.0
    ensures var seg := Make(start, l, k0, k1);
      seg.Curvature(s) * l == k0 * (seg.s1 - s) + k1 * (s - seg.s0)
  {
    var seg := Make(start, l, k0, k1);
    assert 2.0 * seg.c * l == k1 - k0;
  }

  /** Curvature is affine in arc length: equal steps in s give equal steps in curvature. */
  lemma CurvatureAffine(seg: Segment, s: real, t: real)
    ensures seg.Curvature(s) - seg.Curvature(t) == 2.0 * seg.c * (s - t)
  {
  }

  /**
   * The angle is the integral of the curvature: since the curvature is
   * affine, the angle gained between t and s is the mean of the two end
   * curvatures times the distance (the trapezoid rule is exact).
   */
  lemma AngleIntegratesCurvature(seg: Segment, s: real, t: real)
    ensures seg.Angle(s) - seg.Angle(t) == (seg.Curvature(s) + seg.Curvature(t)) / 2.0 * (s - t)
  {
    var u := s - seg.s0;
    var v := t - seg.s0;
    assert u * u - v * v == (u + v) * (u - v);
    assert seg.Angle(s) - seg.Angle(t) == seg.b * (u - v) + seg.c * (u * u - v * v);
    assert (seg.Curvature(s) + seg.Curvature(t)) / 2.0 == seg.b + seg.c * (u + v);
    assert u - v == s - t;
  }

  /** Over the whole segment the angle turns by the mean end curvature times the length. */
  lemma EndAngle(start: Pose, l: real, k0: real, k1: real)
    requires l > 0.0
    ensures var seg := Make(start, l, k0, k1);
      seg.Angle(seg.s1) == start.phi + (k0 + k1) / 2.0 * l
  {
    var seg := Make(start, l, k0, k1);
    AngleIntegratesCurvature(seg, seg.s1, seg.s0);
  }

  /** Every segment starts at the pose it was built from, position included. */
  lemma StartsAtStart(F: PositionIntegral, start: Pose, l: real, k0: real, k1: real)
    requires StartsAtOrigin(F)
    requires l > 0.0
    ensures var seg := Make(start, l, k0, k1);
      seg.PointAt(F, seg.s0) == CurvePoint(k0, start.phi, start.x, start.y)
  {
    var seg := Make(start, l, k0, k1);
    assert F(seg.a, seg.b, seg.c, 0.0) == (0.0, 0.0);
  }

  // ---------------------------------------------------------------------
  // Constraint maps and their JSON names
  // ---------------------------------------------------------------------

  datatype SpiralConstraint = SpiralLength | SpiralRStart | SpiralREnd
  datatype ArcConstraint = ArcLength | ArcRStart
  datatype LineConstraint = LineLength

  type SpiralInput = map<SpiralConstraint, real>
  type ArcInput = map<ArcConstraint, real>
  type LineInput = map<LineConstraint, real>

  function SpiralName(c: SpiralConstraint): (n: string)
    ensures n in {"length", "r_start", "r_end"}
  {
    match c
    case SpiralLength => "length"
    case SpiralRStart => "r_start"
    case SpiralREnd => "r_end"
  }

  /** Reading a name falls back to the first table entry when the name is unknown. */
  function SpiralFromName(n: string): (c: SpiralConstraint)
    ensures SpiralName(c) == n <==> n in {"length", "r_start", "r_end"}
    ensures n !in {"length", "r_start", "r_end"} ==> c == SpiralLength
  {
    if n == "r_start" then SpiralRStart
    else if n == "r_end" then SpiralREnd
    else SpiralLength
  }

  function ArcName(c: ArcConstraint): (n: string)
    ensures n in {"length", "radius"}
  {
    match c
    case ArcLength => "length"
    case ArcRStart => "radius"
  }

  function ArcFromName(n: string): (c: ArcConstraint)
    ensures ArcName(c) == n <==> n in {"length", "radius"}
    ensures n !in {"length", "radius"} ==> c == ArcLength
  {
    if n == "radius" then ArcRStart else ArcLength
  }

  function LineName(c: LineConstraint): (n: string)
    ensures n == SpiralName(SpiralLength) && n == ArcName(ArcLength)
  {
    "length"
  }

  function LineFromName(n: string): (c: LineConstraint)
    ensures LineName(c) == n <==> n == "length"
  {
    LineLength
  }

  /** The spiral name table is a bijection between the constraints and three names. */
  lemma SpiralNamesRoundTrip(c: SpiralConstraint, n: string)
    ensures SpiralName(SpiralLength) == "length" && SpiralName(SpiralRStart) == "r_start"
    ensures SpiralName(SpiralREnd) == "r_end"
    ensures SpiralFromName(SpiralName(c)) == c
    ensures SpiralName(SpiralFromName(n)) == n <==> n in {"length", "r_start", "r_end"}
    ensures forall d: SpiralConstraint :: SpiralName(d) == SpiralName(c) ==> d == c
  {
  }

  /** The arc table names the start radius "radius", not "r_start". */
  lemma ArcNamesRoundTrip(c: ArcConstraint, n: string)
    ensures ArcName(ArcLength) == "length" && ArcName(ArcRStart) == "radius"
    ensures ArcFromName(ArcName(c)) == c
    ensures ArcName(ArcFromName(n)) == n <==> n in {"length", "radius"}
    ensures ArcName(ArcRStart) != SpiralName(SpiralRStart)
    ensures forall d: ArcConstraint :: ArcName(d) == ArcName(c) ==> d == c
  {
  }

  lemma LineNamesRoundTrip(c: LineConstraint, n: string)
    ensures LineFromName(LineName(c)) == c
    ensures LineName(LineFromName(n)) == n <==> n == "length"
  {
  }

  // ---------------------------------------------------------------------
  // Construction from constraint maps
  // ---------------------------------------------------------------------

  /** A curvature from a radius; a zero radius is rejected. */
  function CurvatureOf(r: real): (k: Result<real>)
    ensures k.Success? <==> r != 0.0
    ensures k.Success? ==> k.value * r == 1.0
    ensures k.Failure? ==> k.error == ConstraintError
  {
    if r == 0.0 then Failure(ConstraintError) else Success(1.0 / r)
  }

  function FromLine(start: Pose, input: LineInput): (r: Result<Segment>)
    ensures r.Success? <==> LineLength in input && input[LineLength] > 0.0
    ensures r.Success? ==> r.value.Length() == input[LineLength]
    ensures r.Success? ==> r.value.StartPose() == start
    ensures r.Success? ==> forall s :: r.value.Curvature(s) == 0.0
    ensures r.Failure? ==> (r.error == DegenerateSegment <==> LineLength in input)
    ensures r.Failure? ==> (r.error == ConstraintError <==> LineLength !in input)
  {
    if LineLength !in input then Failure(ConstraintError)
    else
      var seg :- FromLength(start, input[LineLength], 0.0, 0.0);
      CurvatureConstantIff(seg);
      Success(seg)
  }

  function FromArc(start: Pose, input: ArcInput): (r: Result<Segment>)
    ensures r.Success? <==>
      ArcLength in input && ArcRStart in input && input[ArcRStart] != 0.0 && input[ArcLength] > 0.0
    ensures r.Success? ==> r.value.Length() == input[ArcLength]
    ensures r.Success? ==> r.value.StartPose() == start
    ensures r.Success? ==> forall s :: r.value.Curvature(s) * input[ArcRStart] == 1.0
    ensures r.Failure? ==>
      (r.error == DegenerateSegment <==> ArcLength in input && ArcRStart in input && input[ArcRStart] != 0.0)
    ensures r.Failure? ==>
      (r.error == ConstraintError <==> !(ArcLength in input && ArcRStart in input && input[ArcRStart] != 0.0))
  {
    if ArcLength !in input || ArcRStart !in input then Failure(ConstraintError)
    else
      var k :- CurvatureOf(input[ArcRStart]);
      var seg :- FromLength(start, input[ArcLength], k, k);
      assert seg.c == 0.0;
      Success(seg)
  }

  function FromSpiral(start: Pose, input: SpiralInput): (r: Result<Segment>)
    ensures r.Success? <==>
      && SpiralLength in input && SpiralRStart in input && SpiralREnd in input
      && input[SpiralRStart] != 0.0 && input[SpiralREnd] != 0.0
      && input[SpiralLength] > 0.0
    ensures r.Success? ==> r.value.Length() == input[SpiralLength]
    ensures r.Success? ==> r.value.StartPose() == start
    ensures r.Success? ==> r.value.Curvature(r.value.s0) * input[SpiralRStart] == 1.0
    ensures r.Success? ==> r.value.Curvature(r.value.s1) * input[SpiralREnd] == 1.0
    ensures r.Failure? ==>
      (r.error == DegenerateSegment <==>
        && SpiralLength in input && SpiralRStart in input && SpiralREnd in input
        && input[SpiralRStart] != 0.0 && input[SpiralREnd] != 0.0)
    ensures r.Failure? ==>
      (r.error == ConstraintError <==>
        !(&& SpiralLength in input && SpiralRStart in input && SpiralREnd in input
          && input[SpiralRStart] != 0.0 && input[SpiralREnd] != 0.0))
  {
    if SpiralLength !in input || SpiralRStart !in input || SpiralREnd !in input then Failure(ConstraintError)
    else
      var k0 :- CurvatureOf(input[SpiralRStart]);
      var k1 :- CurvatureOf(input[SpiralREnd]);
      FromLength(start, input[SpiralLength], k0, k1)
  }

  /** Each constraint map yields the shape its name promises. */
  lemma ShapeOfInputs(start: Pose, line: LineInput, arc: ArcInput, spiral: SpiralInput)
    ensures FromLine(start, line).Success? ==> ShapeOf(FromLine(start, line).value) == Line
    ensures FromArc(start, arc).Success? ==> ShapeOf(FromArc(start, arc).value) == Arc
    ensures FromSpiral(start, spiral).Success? ==>
      (ShapeOf(FromSpiral(start, spiral).value) == Spiral <==> spiral[SpiralRStart] != spiral[SpiralREnd])
  {
    var r := FromSpiral(start, spiral);
    if r.Success? {
      var seg := r.value;
      var r0, r1 := spiral[SpiralRStart], spiral[SpiralREnd];
      assert seg.b * r0 == 1.0;
      assert seg.Curvature(seg.s1) * r1 == 1.0;
      CurvatureConstantIff(seg);
      if r0 == r1 {
        assert seg.Curvature(seg.s1) == seg.b;
        assert seg.c * seg.Length() == 0.0;
      } else {
        assert 1.0 / r0 != 1.0 / r1;
        assert seg.b != 0.0;
      }
    }
  }
}

/**
 * The profile curve of a limb (ProfileCurve): a table of (s, k) nodes, one
 * Euler-spiral piece per interval between consecutive nodes, chained so that
 * every piece starts where the previous one ends. Evaluation looks up the
 * interval that holds the argument, starting from the interval of the
 * previous call, and evaluates that piece.
 */
module ProfileCurve {
  import opened Errors
  import opened Clothoid

  /**
   * Input vocabulary of ProfileCurve.hpp:11-25 over Clothoid.SegmentType,
   * kept as data only: Build takes the node table these inputs reduce to.
   */
  datatype ConstraintType = XEnd | YEnd | SEnd
  datatype Constraint = Constraint(kind: ConstraintType, value: real)
  datatype SegmentInput = SegmentInput(kind: SegmentType, constraints: seq<Constraint>)

  /** One row of the input table: arc length and curvature there. */
  datatype Node = Node(s: real, k: real)

  /** The built curve: node arc lengths and one piece per interval. */
  datatype Curve = Curve(s: seq<real>, f: seq<Segment>)

  ghost predicate Ascending(s: seq<real>) {
    forall i, j :: 0 <= i < j < |s| ==> s[i] < s[j]
  }

  function ArcLengths(input: seq<Node>): (s: seq<real>)
    ensures |s| == |input| && forall i :: 0 <= i < |input| ==> s[i] == input[i].s
  {
    seq(|input|, i requires 0 <= i < |input| => input[i].s)
  }

  function Curvatures(input: seq<Node>): (k: seq<real>)
    ensures |k| == |input| && forall i :: 0 <= i < |input| ==> k[i] == input[i].k
  {
    seq(|input|, i requires 0 <= i < |input| => input[i].k)
  }

  /** The check the constructor performs on the arc-length column. */
  function IsAscending(s: seq<real>): (b: bool)
    ensures b <==> Ascending(s)
  {
    if |s| <= 1 then true
    else
      var rest := IsAscending(s[1..]);
      assert Ascending(s[1..]) && s[0] < s[1] ==> Ascending(s) by {
        if Ascending(s[1..]) && s[0] < s[1] {
          forall i, j | 0 <= i < j < |s| ensures s[i] < s[j] {
            if i > 0 {
              assert s[1..][i - 1] < s[1..][j - 1];
            } else if j > 1 {
              assert s[1..][0] < s[1..][j - 1];
            }
          }
        }
      }
      s[0] < s[1] && rest
  }

  /**
   * The piece for one interval: curvature k0 at s0 rising affinely to k1 at
   * s1, starting at (x0, y0) with angle phi0.
   */
  function EulerSpiral(s0: real, s1: real, k0: real, k1: real, x0: real, y0: real, phi0: real): (seg: Segment)
    requires s0 < s1
    ensures seg.Valid() && seg.s0 == s0 && seg.s1 == s1
    ensures seg.Curvature(s0) == k0 && seg.Curvature(s1) == k1
    ensures seg.StartPose() == Pose(s0, x0, y0, phi0)
  {
    Make(Pose(s0, x0, y0, phi0), s1 - s0, k0, k1)
  }

  /**
   * The pieces for the intervals of s, the first starting at (x0, y0, phi0)
   * and each next one at the end pose of the one before.
   */
  function Chain(F: PositionIntegral, s: seq<real>, k: seq<real>, x0: real, y0: real, phi0: real): (f: seq<Segment>)
    requires |s| >= 1 && |k| == |s| && Ascending(s)
    ensures |f| == |s| - 1
    ensures forall i :: 0 <= i < |f| ==>
      && f[i].Valid() && f[i].s0 == s[i] && f[i].s1 == s[i + 1]
      && f[i].Curvature(s[i]) == k[i] && f[i].Curvature(s[i + 1]) == k[i + 1]
    ensures |f| > 0 ==> f[0].StartPose() == Pose(s[0], x0, y0, phi0)
    ensures forall i :: 0 <= i < |f| - 1 ==> f[i + 1].StartPose() == f[i].EndPose(F)
    decreases |s|
  {
    if |s| == 1 then []
    else
      var seg := EulerSpiral(s[0], s[1], k[0], k[1], x0, y0, phi0);
      var e := seg.EndPose(F);
      assert Ascending(s[1..]);
      var rest := Chain(F, s[1..], k[1..], e.x, e.y, e.phi);
      [seg] + rest
  }

  /**
   * What construction establishes: at least one interval, strictly ascending
   * nodes, one piece per interval over exactly that interval, and pieces that
   * join without a jump in curvature, angle or position.
   */
  ghost predicate WellFormed(F: PositionIntegral, c: Curve) {
    && |c.s| >= 2
    && Ascending(c.s)
    && |c.f| == |c.s| - 1
    && (forall i :: 0 <= i < |c.f| ==> c.f[i].s0 == c.s[i] && c.f[i].s1 == c.s[i + 1])
    && (forall i :: 0 <= i < |c.f| - 1 ==> c.f[i].PointAt(F, c.s[i + 1]) == c.f[i + 1].PointAt(F, c.s[i + 1]))
  }

  /**
   * Builds the curve from the node table and the start pose. A table with
   * fewer than two rows or arc lengths that do not strictly ascend is an
   * invalid argument.
   */
  function Build(F: PositionIntegral, input: seq<Node>, x0: real, y0: real, phi0: real): (r: Result<Curve>)
    requires StartsAtOrigin(F)
    ensures r.Success? <==> |input| >= 2 && Ascending(ArcLengths(input))
    ensures r.Failure? ==> r.error == InvalidArgument
    ensures r.Success? ==> WellFormed(F, r.value) && r.value.s == ArcLengths(input)
    ensures r.Success? ==> forall i :: 0 <= i < |r.value.f| ==>
      r.value.f[i].Curvature(input[i].s) == input[i].k && r.value.f[i].Curvature(input[i + 1].s) == input[i + 1].k
    ensures r.Success? ==> r.value.f[0].StartPose() == Pose(input[0].s, x0, y0, phi0)
  {
    var s := ArcLengths(input);
    if |input| < 2 || !IsAscending(s) then Failure(InvalidArgument)
    else
      var f := Chain(F, s, Curvatures(input), x0, y0, phi0);
      var c := Curve(s, f);
      assert WellFormed(F, c) by {
        forall i | 0 <= i < |f| - 1
          ensures f[i].PointAt(F, s[i + 1]) == f[i + 1].PointAt(F, s[i + 1])
        {
          JoinIsContinuous(F, f[i], f[i + 1]);
        }
      }
      Success(c)
  }

  /** A piece that starts at the end pose of another, with the same curvature there, continues it. */
  lemma JoinIsContinuous(F: PositionIntegral, g: Segment, h: Segment)
    requires StartsAtOrigin(F)
    requires h.StartPose() == g.EndPose(F)
    requires h.Curvature(h.s0) == g.Curvature(g.s1)
    ensures g.PointAt(F, g.s1) == h.PointAt(F, h.s0)
  {
    assert F(h.a, h.b, h.c, 0.0) == (0.0, 0.0);
  }

  /** The smallest arc length of an ascending node table. */
  function SMin(c: Curve): (r: real)
    requires |c.s| >= 1
    ensures r in c.s
    ensures Ascending(c.s) ==> forall i :: 0 <= i < |c.s| ==> r <= c.s[i]
  {
    c.s[0]
  }

  /** The largest arc length of an ascending node table. */
  function SMax(c: Curve): (r: real)
    requires |c.s| >= 1
    ensures r in c.s
    ensures Ascending(c.s) ==> forall i :: 0 <= i < |c.s| ==> c.s[i] <= r
  {
    c.s[|c.s| - 1]
  }

  /** The curve spans from the first to the last input arc length, with one piece per interval. */
  lemma BuildBounds(F: PositionIntegral, input: seq<Node>, x0: real, y0: real, phi0: real)
    requires StartsAtOrigin(F)
    requires Build(F, input, x0, y0, phi0).Success?
    ensures var c := Build(F, input, x0, y0, phi0).value;
      && SMin(c) == input[0].s
      && SMax(c) == input[|input| - 1].s
      && SMin(c) < SMax(c)
      && |c.f| == |input| - 1
  {
  }

  /** The interval of the first node at or beyond arg: the reference lookup. */
  function IntervalOf(s: seq<real>, arg: real): (i: nat)
    requires |s| >= 2 && arg <= s[|s| - 1]
    ensures i < |s| - 1 && arg <= s[i + 1]
    ensures forall j :: 0 < j <= i ==> s[j] < arg
    decreases |s|
  {
    if |s| == 2 || arg <= s[1] then 0
    else
      var i' := IntervalOf(s[1..], arg);
      assert forall j :: 1 < j <= i' + 1 ==> s[j] == s[1..][j - 1];
      1 + i'
  }

  /** The reference lookup lands on an interval that holds arg. */
  lemma IntervalHolds(s: seq<real>, arg: real)
    requires |s| >= 2 && s[0] <= arg <= s[|s| - 1]
    ensures var i := IntervalOf(s, arg); s[i] <= arg <= s[i + 1]
  {
    var i := IntervalOf(s, arg);
    if i > 0 {
      assert s[i] < arg;
    }
  }

  /**
   * Evaluation at arc length arg, independent of any hint. Outside
   * [s_min, s_max] it is a domain error.
   */
  function Eval(F: PositionIntegral, c: Curve, arg: real): (r: Result<CurvePoint>)
    requires WellFormed(F, c)
    ensures r.Success? <==> SMin(c) <= arg <= SMax(c)
    ensures r.Failure? ==> r.error == DomainError
  {
    if arg < SMin(c) || arg > SMax(c) then Failure(DomainError)
    else Success(c.f[IntervalOf(c.s, arg)].PointAt(F, arg))
  }

  /**
   * Two intervals that both hold arg give the same point: either they are the
   * same interval or arg is the node they share, where the pieces join.
   */
  lemma OverlapAgrees(F: PositionIntegral, c: Curve, arg: real, i: nat, j: nat)
    requires WellFormed(F, c)
    requires i < |c.f| && c.s[i] <= arg <= c.s[i + 1]
    requires j < |c.f| && c.s[j] <= arg <= c.s[j + 1]
    ensures c.f[i].PointAt(F, arg) == c.f[j].PointAt(F, arg)
  {
    if i + 1 == j {
      assert arg == c.s[i + 1];
    } else if j + 1 == i {
      assert arg == c.s[j + 1];
    }
  }

  /** Any interval holding arg evaluates to what Eval returns. */
  lemma AnyHoldingIntervalEvaluates(F: PositionIntegral, c: Curve, arg: real, i: nat)
    requires WellFormed(F, c)
    requires i < |c.f| && c.s[i] <= arg <= c.s[i + 1]
    ensures Eval(F, c, arg) == Success(c.f[i].PointAt(F, arg))
  {
    assert c.s[0] <= c.s[i] || i == 0;
    assert c.s[i + 1] <= c.s[|c.s| - 1] || i + 1 == |c.s| - 1;
    IntervalHolds(c.s, arg);
    OverlapAgrees(F, c, arg, i, IntervalOf(c.s, arg));
  }

  /**
   * Interval search from a hint (the index of the previous evaluation): walk
   * down while arg lies before the interval, then up while it lies beyond.
   */
  method Locate(s: seq<real>, arg: real, hint: nat) returns (i: nat)
    requires |s| >= 2 && s[0] <= arg <= s[|s| - 1]
    ensures i < |s| - 1 && s[i] <= arg <= s[i + 1]
  {
    i := if hint < |s| - 1 then hint else |s| - 2;
    while arg < s[i]
      invariant i < |s| - 1
      decreases i
    {
      i := i - 1;
    }
    while s[i + 1] < arg
      invariant i < |s| - 1 && s[i] <= arg
      decreases |s| - i
    {
      i := i + 1;
    }
  }

  /**
   * Evaluation as the source performs it, with the hint as an explicit
   * in/out parameter. The point returned does not depend on the hint.
   */
  method Evaluate(F: PositionIntegral, c: Curve, arg: real, hint: nat) returns (r: Result<CurvePoint>, next: nat)
    requires WellFormed(F, c)
    ensures r == Eval(F, c, arg)
    ensures next < |c.f|
  {
    if arg < SMin(c) || arg > SMax(c) {
      r, next := Failure(DomainError), if hint < |c.f| then hint else 0;
    } else {
      next := Locate(c.s, arg, hint);
      r := Success(c.f[next].PointAt(F, arg));
      AnyHoldingIntervalEvaluates(F, c, arg, next);
    }
  }

  /**
   * A run of evaluations that threads the hint from call to call, in
   * whatever order the arguments come: each result is the hint-free value.
   */
  method EvaluateAll(F: PositionIntegral, c: Curve, args: seq<real>, hint: nat) returns (rs: seq<Result<CurvePoint>>)
    requires WellFormed(F, c)
    ensures |rs| == |args|
    ensures forall n :: 0 <= n < |args| ==> rs[n] == Eval(F, c, args[n])
  {
    rs := [];
    var h := hint;
    var n := 0;
    while n < |args|
      invariant n <= |args| && |rs| == n
      invariant forall m :: 0 <= m < n ==> rs[m] == Eval(F, c, args[m])
    {
      var r;
      r, h := Evaluate(F, c, args[n], h);
      rs := rs + [r];
      n := n + 1;
    }
  }

  /** At each node the curve has exactly the curvature given for it in the table. */
  lemma NodeCurvature(F: PositionIntegral, input: seq<Node>, x0: real, y0: real, phi0: real, i: nat)
    requires StartsAtOrigin(F)
    requires Build(F, input, x0, y0, phi0).Success?
    requires i < |input|
    ensures var c := Build(F, input, x0, y0, phi0).value;
      Eval(F, c, input[i].s).Success? && Eval(F, c, input[i].s).value.k == input[i].k
  {
    var c := Build(F, input, x0, y0, phi0).value;
    var j := if i == 0 then 0 else i - 1;
    assert c.s[j] <= input[i].s <= c.s[j + 1];
    AnyHoldingIntervalEvaluates(F, c, input[i].s, j);
  }

  /** The curve starts at the given start pose with the first node's curvature. */
  lemma StartsAtInitialPose(F: PositionIntegral, input: seq<Node>, x0: real, y0: real, phi0: real)
    requires StartsAtOrigin(F)
    requires Build(F, input, x0, y0, phi0).Success?
    ensures var c := Build(F, input, x0, y0, phi0).value;
      Eval(F, c, SMin(c)) == Success(CurvePoint(input[0].k, phi0, x0, y0))
  {
    var c := Build(F, input, x0, y0, phi0).value;
    var g := c.f[0];
    AnyHoldingIntervalEvaluates(F, c, c.s[0], 0);
    assert F(g.a, g.b, g.c, 0.0) == (0.0, 0.0);
  }
}

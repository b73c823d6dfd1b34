# VirtualBow limb profile curve — a Dafny model

This project models the core of VirtualBow's limb geometry and a few small
pure pieces around it:

- **ClothoidSegment**: one piece of a limb profile whose curvature varies
  affinely with arc length. Depending on the curvature, it is a line, a
  circular arc or a clothoid. It is built from a raw `(l, k0, k1)` or from the
  per-type constraint maps (spiral, arc, line). Each map has its own table
  between constraint names and JSON names.
- **ProfileCurve**: built from a table of `(s, k)` nodes and a start pose
  `(x0, y0, phi0)`. It holds one Euler-spiral piece per interval, chained end
  to start. It answers `s_min`, `s_max` and evaluation at an arc length. In
  the source, evaluation keeps the interval of the previous call as a hint.
  The model proves the result does not depend on that hint.
- **Layer2**: a layer record with its defaults, field-wise equality and JSON
  conversion.
- **DoubleSpinBox**: the `[minimum, maximum]` bounds selected by a `ValueRange`.
- **ShapePlot**: which bow states are sampled as background outlines, the
  curve-slot layout, and the order in which limb outline points are emitted
  for both halves.

Curvature and angle are exact over `real`. The position of a clothoid is a
floating-point integral in the source. Here it is a parameter `F` of type
`PositionIntegral`: `F(a, b, c, ds)` is the displacement after the arc length
`ds`. The only property assumed of it is `StartsAtOrigin`: no travel, no
displacement. In the same way, `sin`, `cos` and the display-unit conversion of
ShapePlot are function parameters.

Modules: `Errors` (the `Result` type and the error kinds), `Clothoid`,
`ProfileCurve`, `Layer`, `SpinBox` and `ShapePlot`.

The segment vocabulary (`SegmentType`, `ConstraintType`, `SegmentInput`) is
declared beside the curve, but the curve's constructor takes a node table of
arc lengths and curvatures. The model follows the constructor and keeps the
vocabulary as data only. `SegmentType` is declared once, in `Clothoid`, where
`ShapeOf` classifies a segment by it.

Interpretations where the source shows declarations only:

- ClothoidSegment.cpp is not part of this model. Its fields `a, b, c` are read
  as the tangent-angle polynomial `angle(s) = a + b(s-s0) + c(s-s0)^2`. That
  gives `curvature(s) = b + 2c(s-s0)`, `a = phi0`, `b = k0` and
  `c = (k1-k0)/(2l)`.
- A length `l <= 0` fails with `DegenerateSegment`. A missing map key or a zero
  radius fails with `ConstraintError`.
- ProfileCurve.cpp is not part of this model. "Ascending order" is taken as
  strictly ascending, because an interval of zero length would divide by zero
  in the curvature slope. A table with fewer than two rows is also rejected as
  an invalid argument, because it has no interval to evaluate.
- An argument outside `[s_min, s_max]` is a `DomainError`.
- The JSON enum tables follow nlohmann's `NLOHMANN_JSON_SERIALIZE_ENUM`: an
  unknown name reads as the first entry of the table (`LENGTH`).

## Model

| member | source | states |
|---|---|---|
| Clothoid.FromLength | source/solver/model/profile/segments/ClothoidSegment.hpp:26-44 | built from a start pose and `(l, k0, k1)`: succeeds exactly when `l > 0`, otherwise fails as degenerate; the segment starts at the given pose, `s_end - s_start == l`, the curvature is `k0` at the start and `k1` at the end |
| Clothoid.Make | source/solver/model/profile/segments/ClothoidSegment.hpp:26 | the constructor from `(l, k0, k1)` for `l > 0`: the segment starts at the start pose, spans `l`, and has curvature `k0` at its start and `k1` at its end |
| Clothoid.Segment.Curvature | source/solver/model/profile/segments/ClothoidSegment.hpp:31 | no contract of its own: Clothoid.CurvatureInterpolates and Clothoid.CurvatureAffine state that it interpolates linearly between the end curvatures |
| Clothoid.Segment.Angle | source/solver/model/profile/segments/ClothoidSegment.hpp:32 | no contract of its own: Clothoid.AngleIntegratesCurvature and Clothoid.EndAngle state that it is the integral of the curvature from the start angle |
| Clothoid.Segment.PointAt | source/solver/model/profile/segments/ClothoidSegment.hpp:31-33 | no contract of its own: Clothoid.StartsAtStart states that at `s_start` it gives the start point, angle and `k0` |
| Clothoid.SpiralName | source/solver/model/profile/segments/ClothoidSegment.hpp:7 | every spiral constraint is written as one of "length", "r_start" and "r_end" |
| Clothoid.SpiralFromName | source/solver/model/profile/segments/ClothoidSegment.hpp:7 | a name reads to a constraint that is written back as that name exactly when it is one of the three table names; any other name reads as LENGTH |
| Clothoid.ArcName | source/solver/model/profile/segments/ClothoidSegment.hpp:10 | every arc constraint is written as "length" or "radius" |
| Clothoid.ArcFromName | source/solver/model/profile/segments/ClothoidSegment.hpp:10 | a name reads to a constraint written back as that name exactly when it is "length" or "radius"; any other name reads as LENGTH |
| Clothoid.LineName | source/solver/model/profile/segments/ClothoidSegment.hpp:13 | the line length is written under the same name "length" as the spiral and arc lengths |
| Clothoid.LineFromName | source/solver/model/profile/segments/ClothoidSegment.hpp:13 | a name reads to a constraint written back as that name exactly when it is "length" |
| ProfileCurve.SMin | source/solver/model/ProfileCurve.hpp:46 | `s_min` is one of the node arc lengths, and on an ascending table the smallest of them |
| ProfileCurve.SMax | source/solver/model/ProfileCurve.hpp:47 | `s_max` is one of the node arc lengths, and on an ascending table the largest of them |
| ShapePlot.SampleIndex | source/post/ShapePlot.cpp:77 | no contract of its own: ShapePlot.SampleIsExact, ShapePlot.SampleInRange, ShapePlot.SampleEnds and ShapePlot.SampleMonotone state which recorded state the `i`-th intermediate outline samples |
| Clothoid.ShapeOf | source/solver/model/profile/segments/ClothoidSegment.hpp:19-20 | a segment is a line exactly when its curvature is zero everywhere, and an arc exactly when its curvature is a non-zero constant; it is never a spline |
| Clothoid.CurvatureInterpolates | source/solver/model/profile/segments/ClothoidSegment.hpp:19-20 | the curvature at any `s` is the linear interpolation of `k0` and `k1`, weighted by the distance to the other end |
| Clothoid.CurvatureAffine | source/solver/model/profile/segments/ClothoidSegment.hpp:19-20 | a curvature difference is proportional to the arc-length difference, with one slope for the whole segment |
| Clothoid.AngleIntegratesCurvature | source/solver/model/profile/segments/ClothoidSegment.hpp:31-32 | the angle gained between two arc lengths is their mean curvature times the distance, so the angle is the integral of the curvature |
| Clothoid.EndAngle | source/solver/model/profile/segments/ClothoidSegment.hpp:26-32 | over the whole segment the angle turns by `(k0 + k1)/2 * l` from the start angle |
| Clothoid.StartsAtStart | source/solver/model/profile/segments/ClothoidSegment.hpp:23-39 | at `s_start` the segment has the start point's position and angle, and curvature `k0` |
| Clothoid.SpiralNamesRoundTrip | source/solver/model/profile/segments/ClothoidSegment.hpp:6-7 | LENGTH, R_START and R_END are written as "length", "r_start" and "r_end"; reading a written name gives the constraint back; a name reads back to itself exactly when it is one of those three; no two constraints share a name |
| Clothoid.ArcNamesRoundTrip | source/solver/model/profile/segments/ClothoidSegment.hpp:9-10 | the arc table writes R_START as "radius", not "r_start"; it round-trips and is injective; exactly "length" and "radius" read back to themselves |
| Clothoid.LineNamesRoundTrip | source/solver/model/profile/segments/ClothoidSegment.hpp:12-13 | the single line constraint round-trips through "length", the only name that reads back to itself |
| Clothoid.CurvatureOf | source/solver/model/profile/segments/ClothoidSegment.hpp:23-24 | a radius gives a curvature `k` with `k * r == 1` exactly when the radius is non-zero; a zero radius is a constraint error |
| Clothoid.FromLine | source/solver/model/profile/segments/ClothoidSegment.hpp:12-25 | a line map succeeds exactly when LENGTH is present and positive; the segment starts at the start pose, has that length, and has zero curvature everywhere; a failure is a degenerate-segment error exactly when LENGTH is present (so the length is not positive), and a constraint error exactly when it is missing |
| Clothoid.FromArc | source/solver/model/profile/segments/ClothoidSegment.hpp:9-24 | an arc map succeeds exactly when LENGTH and a non-zero radius are present and the length is positive; the curvature times the radius is 1 everywhere; a failure is a degenerate-segment error exactly when both keys are present and the radius is non-zero, and a constraint error otherwise |
| Clothoid.FromSpiral | source/solver/model/profile/segments/ClothoidSegment.hpp:6-23 | a spiral map succeeds exactly when all three keys are present, both radii are non-zero and the length is positive; the start and end curvatures are the reciprocals of R_START and R_END; a failure is a degenerate-segment error exactly when all three keys are present and both radii are non-zero, and a constraint error otherwise |
| Clothoid.ShapeOfInputs | source/solver/model/profile/segments/ClothoidSegment.hpp:19-25 | a line map yields a line and an arc map an arc; a spiral map yields a true spiral exactly when its two radii differ |
| ProfileCurve.IsAscending | source/solver/model/ProfileCurve.hpp:39-43 | the adjacent-pair check on the arc-length column holds exactly when every earlier arc length is below every later one |
| ProfileCurve.EulerSpiral | source/solver/model/ProfileCurve.hpp:59-62 | the piece for `[s0, s1]` has curvature `k0` at `s0` and `k1` at `s1`, and starts at `(x0, y0, phi0)` |
| ProfileCurve.Chain | source/solver/model/ProfileCurve.hpp:39-62 | one piece per interval, each spanning exactly its interval with the node curvatures at both ends; the first piece starts at the given pose; each next piece starts at the end pose of the previous one |
| ProfileCurve.Build | source/solver/model/ProfileCurve.hpp:39-43 | construction succeeds exactly when there are at least two rows with strictly ascending arc lengths, otherwise it fails with an invalid-argument error; a built curve keeps the input arc lengths and joins its pieces without a jump in curvature, angle or position |
| ProfileCurve.JoinIsContinuous | source/solver/model/ProfileCurve.hpp:59-62 | a piece that starts at the end pose of another, with matching curvature, evaluates at its start to the point the other reaches at its end |
| ProfileCurve.BuildBounds | source/solver/model/ProfileCurve.hpp:45-57 | `s_min` is the first input arc length, `s_max` the last, `s_min < s_max`, and there is one piece per interval between consecutive nodes |
| ProfileCurve.IntervalOf | source/solver/model/ProfileCurve.hpp:50-56 | the reference lookup returns the first interval whose right node is at or beyond the argument |
| ProfileCurve.IntervalHolds | source/solver/model/ProfileCurve.hpp:50-56 | for an argument in `[s_min, s_max]`, the reference lookup returns an `i` with `s[i] <= arg <= s[i+1]` |
| ProfileCurve.Eval | source/solver/model/ProfileCurve.hpp:45-50 | evaluation succeeds exactly when the argument lies in `[s_min, s_max]`; outside it is a domain error |
| ProfileCurve.OverlapAgrees | source/solver/model/ProfileCurve.hpp:50-57 | any two intervals that both hold the argument give the same curve point |
| ProfileCurve.AnyHoldingIntervalEvaluates | source/solver/model/ProfileCurve.hpp:50-57 | evaluating the piece of any interval that holds the argument gives the hint-free result |
| ProfileCurve.Locate | source/solver/model/ProfileCurve.hpp:50-56 | the search from any previous-interval hint ends on an interval `i` with `s[i] <= arg <= s[i+1]` |
| ProfileCurve.Evaluate | source/solver/model/ProfileCurve.hpp:50-55 | evaluation with the hint returns the hint-free result for every hint, and leaves a valid interval index as the next hint |
| ProfileCurve.EvaluateAll | source/solver/model/ProfileCurve.hpp:50-55 | evaluations in any order that thread the hint from call to call each give the hint-free result |
| ProfileCurve.NodeCurvature | source/solver/model/ProfileCurve.hpp:39-42 | at every input arc length the curve evaluates, and its curvature is the curvature given for that node |
| ProfileCurve.StartsAtInitialPose | source/solver/model/ProfileCurve.hpp:43-62 | at `s_min` the curve is at `(x0, y0)` with angle `phi0` and the first node's curvature |
| Layer.Default | source/bow/input/Layer.hpp:7-13 | a default layer is named "unnamed", has height series `{0, 1} -> {0.0128, 0.008}`, rho 600 and E 15e9 |
| Layer.Equal | source/bow/input/Layer.hpp:15-21 | the field-wise comparison holds exactly when the two layers are the same value |
| Layer.EqualIsEquivalence | source/bow/input/Layer.hpp:15-21 | the comparison is reflexive, symmetric and transitive |
| Layer.ToJson | source/bow/input/Layer.hpp:23-29 | the written object has exactly the keys "name", "height", "rho" and "E", holding the name as a string and rho and E as numbers |
| Layer.FromJson | source/bow/input/Layer.hpp:31-37 | reading succeeds exactly when the value is an object with the four keys and values of the right kinds; every field comes from its key; the keys are read and converted one at a time in the order name, height, rho, E; a non-object is a type error; on an object the error is a missing-key error exactly when the first key in that order that is missing or of the wrong kind is missing, so with all four keys present any failure is a type error |
| Layer.MistypedNameComesFirst | source/bow/input/Layer.hpp:33-34 | `{"name": 1}` fails with a type error on "name", before the absent "height" is reached |
| Layer.SeriesRoundTrip | source/bow/input/Layer.hpp:26-34 | the stand-in Series encoding reads back to the series written |
| Layer.RoundTrip | source/bow/input/Layer.hpp:23-37 | writing a layer and reading it back gives the same layer |
| Layer.WriteAfterRead | source/bow/input/Layer.hpp:23-37 | writing a layer that was read gives back the read object restricted to the four keys |
| Layer.ReadsOnlyKeys | source/bow/input/Layer.hpp:31-37 | two objects that agree on the four keys read the same, so no other key matters |
| SpinBox.BoundsOf | source/gui/widgets/DoubleSpinBox.hpp:21-46 | for every range, minimum <= maximum, and both lie within the finite doubles |
| SpinBox.RangesBySign | source/gui/widgets/DoubleSpinBox.hpp:22-45 | among finite doubles, UNRESTRICTED admits all; POSITIVE admits exactly those >= the smallest normalised double, so it excludes 0 and all negatives; NEGATIVE is the mirror of that; NON_POSITIVE admits exactly `v <= 0` and NON_NEGATIVE exactly `v >= 0` |
| SpinBox.ZeroBounds | source/gui/widgets/DoubleSpinBox.hpp:27-45 | 0 is admitted by NON_POSITIVE (as its maximum) and by NON_NEGATIVE (as its minimum), and by neither strictly signed range |
| SpinBox.NegativeMirrorsPositive | source/gui/widgets/DoubleSpinBox.hpp:27-45 | NEGATIVE's bounds are POSITIVE's negated and swapped; NON_POSITIVE's are NON_NEGATIVE's negated and swapped |
| SpinBox.WithinUnrestricted | source/gui/widgets/DoubleSpinBox.hpp:21-46 | UNRESTRICTED spans lowest..max, symmetric about 0, and every range admits only values UNRESTRICTED admits |
| ShapePlot.SampleIsExact | source/post/ShapePlot.cpp:76-77 | when the sizes keep the size_t product below 2^64, the wrapped arithmetic equals the exact floor of `i*(n-1)/(k-1)` |
| ShapePlot.SampleInRange | source/post/ShapePlot.cpp:74-77 | with `1 <= n < 2^64` recorded states, every sampled index is at most `n-1`, whether or not the size_t product wraps |
| ShapePlot.SampleWrapsWhenProductOverflows | source/post/ShapePlot.cpp:76-77 | with `n = 2^34+1` states and `k = 2^30+1` intermediate outlines (a value an `int` holds) the size_t product wraps to 0, so the last outline samples state 0 instead of `n-1` |
| ShapePlot.SampleEnds | source/post/ShapePlot.cpp:76-77 | when `(k-1)*(n-1) < 2^64`: the first sample is state 0; with more than one intermediate outline the last is state `n-1`; with exactly one the only sample is 0 |
| ShapePlot.SampleMonotone | source/post/ShapePlot.cpp:76-77 | when `(k-1)*(n-1) < 2^64`, later outlines sample later or equal states |
| ShapePlot.SlotCount | source/post/ShapePlot.cpp:14-48 | each curve list has at least one slot, and `background_states + 1` slots when that count is not negative, and exactly one when it is negative |
| ShapePlot.CurrentSlot | source/post/ShapePlot.cpp:32-48 | the current state is drawn into slot `background_states` when that count is not negative, and into slot 0 when it is negative |
| ShapePlot.BackgroundSlots | source/post/ShapePlot.cpp:72-94 | when `(background_states-2)*(n-1) < 2^64`, the background outlines fill exactly the slots before the current one, so the current slot is never overwritten; slot `background_states-1` holds the unbraced limb when it is not negative; the others hold recorded states in non-decreasing order, from state 0 to state `n-1` |
| ShapePlot.BackPass | source/post/ShapePlot.cpp:144-156 | the first loop emits `|phi|` points per side in node order: the right side gets each back point and the left side its mirror image |
| ShapePlot.BellyPass | source/post/ShapePlot.cpp:158-170 | the second loop emits `|phi|` belly points per side, last node first, each offset from the back by the local height across the limb |
| ShapePlot.LimbOutline | source/post/ShapePlot.cpp:140-171 | each side gets `2*|phi|` points: the back points in forward order, then the belly points in reverse order; each left point uses the negated base x and the same base y as the right point at that position |
| ShapePlot.OutlinePairsNodes | source/post/ShapePlot.cpp:144-170 | positions `t` and `2n-1-t` of the outline both belong to node `t`: its back point first and its belly point on the way back |

## Left out

- Clothoid positions: the Fresnel or quadrature integral for the position of a clothoid, and all trigonometry, are floating-point numerics. They are the parameter `F` of type `PositionIntegral`, and `sin`/`cos` in ShapePlot. Only `F(a, b, c, 0) == (0, 0)` is assumed.
- Segment-level domain checks: ClothoidSegment.cpp is not part of this model. Segment queries are total polynomials, and the out-of-range `DomainError` is modelled at the curve level.
- Infinite radius: the "infinite radius means zero curvature" sentinel has no counterpart in `real`, so it is not modelled. A zero radius is a constraint error.
- Floating-point rounding: doubles are modelled as exact reals, with no rounding, NaN or infinities.
- `ConstraintType::X_End`, `Y_End` and `S_End`: these constraints are declared data only. No code is shown that resolves them, so root-finding is not modelled.
- Spline segments: `CubicSpline` is not part of this model.
- nlohmann JSON internals: they are modelled by a small `Json` datatype.
- Layer.SeriesRoundTrip: Series.hpp is not part of this model. A stand-in two-array encoding is used, and only its round trip is relied on.
- `from_json` partial writes: the source assigns each field of the target layer in place, so a throw on "height" leaves "name" already overwritten. Layer.FromJson returns a fresh layer or an error and does not model the partially updated target.
- `from_json` on a missing key: `operator[]` on a const object with a missing key is undefined behaviour in the source. The model reports `JsonMissingKey` instead.
- DoubleSpinBox: the unit system (`textFromValue`, `valueFromText`, `updateUnit`) is left out. Qt's own processing of the bounds is also left out, including the rounding of bounds to the six decimals set by `setDecimals(6)`. The model states the bounds as they are passed to `setMinimum`/`setMaximum`.
- ShapePlot.SampleInRange: requires at least one recorded state (and fewer than 2^64). With none, the source indexes an empty state vector, which is undefined behaviour.
- ShapePlot.SampleEnds, ShapePlot.SampleMonotone and ShapePlot.BackgroundSlots: these hold only while the size_t product `(intermediate_states-1)*(n-1)` stays below 2^64. Beyond it the product wraps and the last outline need not be the full-draw state (ShapePlot.SampleWrapsWhenProductOverflows); such sizes are far outside what a simulation records.
- ShapePlot rendering: pens, the arrow, axis ranges (`updateAxes`) and the string curves are drawing calls and are left out. The string curves use the same sampled index `j` and the same slot as the limb outline.
- `Operation.hpp` load/save, the Qt/VTK widgets, editors, dialogs and `main.cpp`: these are UI and document plumbing outside this core.

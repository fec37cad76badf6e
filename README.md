# Catmull-Rom spline model

This project models, in Dafny, the core of the `catmull_ros` spline library:

- `Vector3`, the three-component vector with its compound operators (`+=`, `-=`, `*=`, `/=`) and the free operators built on them;
- `ControlVertex`, one knot of the spline with its links, parameter, velocity and Hermite coefficients;
- `CatmullSpline`, the vertex collection, its closed-loop construction `constructClose` and its evaluation (`r`, `dr`, `ddr`);
- the scalar `clamp` helper.

Files:

- `vector3.dfy` (module `Vectors`): the `Vector3` value type and its componentwise arithmetic. The class `Vector3Var` is a vector variable; its methods are the compound operators, which update it in place. The free operators are methods that copy their operand into a fresh `Vector3Var` and apply a compound operator to the copy, as the source does.
- `math_simple.dfy` (module `MathSimple`): `Clamp`.
- `hermite.dfy` (module `HermiteSegment`): the cubic Hermite algebra of one segment. This covers the coefficient formulas, the polynomial and its two derivatives, and the C1 end conditions. Every formula is written once per component.
- `catmull.dfy` (module `Catmull`) has four parts:
  - The specification functions: the planar chord `Chord2D`, the chord-length parameter `Param`, the wrap end `WrapEnd`, the centred velocity `VelocityAt`, the segment coefficients `SegmentA2` and `SegmentA3`, and the segment selection rule `Select`.
  - The class `ControlVertex`. Its methods update its fields in place.
  - The class `CatmullSpline`. Its `vertices` field is a sequence of vertex references that `AddControlVertex` reassigns.
  - The lemmas about the constructed spline.

`ConstructClose` runs the source's stages in order, each a method with its own contract:

1. `LinkAndClose`: links, parameters and `close`.
2. `InitializeVelocities`: the centred velocities.
3. `UpdateBounds`: the min/max loop.
4. `InitSegments`: the segment coefficients of every vertex. It runs the interior loop and then calls `InitWrapSegment` for the wrap segment.

The loop bodies of stages 1 and 4 are the step methods `LinkNext` and `InitSegmentAt`.

The final state is the predicate `Constructed(sqrt)`:

- every vertex carries the chord-length parameter, its links, its centred velocity and its segment coefficients;
- `closed` holds;
- `min_t` is 0;
- `max_t` is the end of the wrap segment.

`R`, `DR` and `DDR` are proved equal to the ghost functions `CurvePosition`, `CurveVelocity` and `CurveAcceleration`. Several lemmas state what those functions give on a constructed spline:

- the curve passes through every control point at its knot;
- it is zero outside `[0, max_t)`;
- neighbouring segments meet with equal position and velocity.

The getters (`getT`, `getP`, `getV`, `getControlVertex`, `getMinT`, `getMaxT`) are reading functions with no contract of their own.

## Model

| member | source | states |
|---|---|---|
| Vectors.Vector3Var.constructor | src/catmull_ros/include/catmull_ros/vector3.hpp:11 | the default vector is (0, 0, 0) |
| Vectors.Vector3Var.FromComponents | src/catmull_ros/include/catmull_ros/vector3.hpp:12 | the vector holds the given components |
| Vectors.Vector3Var.Copy | src/catmull_ros/include/catmull_ros/vector3.hpp:13-18 | the copy has the value of the original |
| Vectors.Vector3Var.AddAssign | src/catmull_ros/include/catmull_ros/vector3.hpp:20-26 | each component grows by the matching component of rhs, only the receiver changes, and the returned value is the receiver's new value |
| Vectors.Vector3Var.SubAssign | src/catmull_ros/include/catmull_ros/vector3.hpp:28-34 | each component shrinks by the matching component of rhs; only the receiver changes |
| Vectors.Vector3Var.MulAssign | src/catmull_ros/include/catmull_ros/vector3.hpp:36-42 | componentwise (Hadamard) product in place, not a dot product |
| Vectors.Vector3Var.AddScalarAssign | src/catmull_ros/include/catmull_ros/vector3.hpp:44-50 | the scalar is added to each of x, y and z, so the new value is `AddScalar` of the old one; only the receiver changes |
| Vectors.Vector3Var.DivAssign | src/catmull_ros/include/catmull_ros/vector3.hpp:52-58 | each component is divided by a non-zero scalar |
| Vectors.Vector3Var.MulScalarAssign | src/catmull_ros/include/catmull_ros/vector3.hpp:60-66 | each component is multiplied by the scalar |
| Vectors.Plus | src/catmull_ros/include/catmull_ros/vector3.hpp:70-75 | `lhs + rhs` is the componentwise sum; the operands are values and stay unchanged |
| Vectors.Minus | src/catmull_ros/include/catmull_ros/vector3.hpp:77-82 | `lhs - rhs` is the componentwise difference |
| Vectors.TimesScalar | src/catmull_ros/include/catmull_ros/vector3.hpp:84-89 | `v * s` scales every component by s; it equals `Scale(v, s)`, as `s * v` does, so the two orders agree |
| Vectors.ScalarTimes | src/catmull_ros/include/catmull_ros/vector3.hpp:91-96 | `s * v` scales every component by s and equals `Scale(v, s)`, the same result as `v * s` |
| Vectors.TimesVector | src/catmull_ros/include/catmull_ros/vector3.hpp:99-104 | `a * b` is the Hadamard product |
| Vectors.DividedBy | src/catmull_ros/include/catmull_ros/vector3.hpp:106-111 | `v / s` divides every component by a non-zero s |
| Vectors.SubUndoesAdd | src/catmull_ros/include/catmull_ros/vector3.hpp:70-82 | subtracting b undoes adding b |
| Vectors.DivUndoesScale | src/catmull_ros/include/catmull_ros/vector3.hpp:106-111 | dividing by a non-zero s undoes scaling by s |
| MathSimple.Clamp | src/catmull_ros/include/catmull_ros/math_simple.hpp:6-10 | val inside [min, max] is returned unchanged; below a non-empty range gives min; above max gives max; a non-empty range bounds the result; an empty range (min > max) always gives max |
| MathSimple.ClampIdempotent | src/catmull_ros/include/catmull_ros/math_simple.hpp:6-10 | clamping twice into a non-empty range equals clamping once |
| HermiteSegment.PositionAtStart | src/catmull_ros/include/catmull_ros/catmull.hpp:117-121 | the segment polynomial at offset 0 is a0 |
| HermiteSegment.VelocityAtStart | src/catmull_ros/include/catmull_ros/catmull.hpp:111-115 | its first derivative at offset 0 is a1 |
| HermiteSegment.AccelerationAtStart | src/catmull_ros/include/catmull_ros/catmull.hpp:105-109 | its second derivative at offset 0 is 2*a2 |
| HermiteSegment.ScalarEndPosition | src/catmull_ros/include/catmull_ros/catmull.hpp:44-47 | per component: with the initHermite coefficients, the cubic reaches the next point after a non-zero span |
| HermiteSegment.ScalarEndVelocity | src/catmull_ros/include/catmull_ros/catmull.hpp:44-47 | per component: with those coefficients, the slope reaches the next velocity after the span |
| HermiteSegment.EndConditions | src/catmull_ros/include/catmull_ros/catmull.hpp:39-48 | C1 end conditions: over a non-zero span d, the segment ends at the next point with the next velocity |
| Catmull.FirstMatch | src/catmull_ros/include/catmull_ros/catmull.hpp:157-163 | the scan's result is the first interval [t[i], t[i+1]) containing u, or none if no interval contains it |
| Catmull.Select | src/catmull_ros/include/catmull_ros/catmull.hpp:155-174 | the selection rule of r/dr/ddr: the first containing interval; else, on a closed spline with t[last] <= u < max_t, the last vertex; else none (each case in both directions) |
| Catmull.ControlVertex.constructor | src/catmull_ros/include/catmull_ros/catmull.hpp:29-32 | the vertex holds p and t; it has no links and zero vectors |
| Catmull.ControlVertex.FromPosition | src/catmull_ros/include/catmull_ros/catmull.hpp:34-37 | the vertex holds p; no links, zero vectors; its t is unconstrained |
| Catmull.ControlVertex.InitHermite | src/catmull_ros/include/catmull_ros/catmull.hpp:39-48 | a0 = p, a1 = v, and a2, a3 are the Hermite coefficients toward next over the span next.t - t |
| Catmull.ControlVertex.InitializeStart | src/catmull_ros/include/catmull_ros/catmull.hpp:52-58 | links prev and next and sets t to 0 |
| Catmull.ControlVertex.Initialize | src/catmull_ros/include/catmull_ros/catmull.hpp:61-69 | links prev and next; t is the planar chord from prev plus prev's parameter |
| Catmull.ControlVertex.InitializeVelocity | src/catmull_ros/include/catmull_ros/catmull.hpp:71-88 | v is the mean of the forward and backward difference quotients over the planar chords |
| Catmull.ControlVertex.InitHermiteClose | src/catmull_ros/include/catmull_ros/catmull.hpp:90-103 | like InitHermite, but the span is the planar chord to next |
| Catmull.ControlVertex.DDHermite | src/catmull_ros/include/catmull_ros/catmull.hpp:105-109 | at the vertex's own parameter the second derivative is 2*a2 |
| Catmull.ControlVertex.DHermite | src/catmull_ros/include/catmull_ros/catmull.hpp:111-115 | at the vertex's own parameter the first derivative is a1 |
| Catmull.ControlVertex.Hermite | src/catmull_ros/include/catmull_ros/catmull.hpp:117-121 | at the vertex's own parameter the position is a0 |
| Catmull.CatmullSpline.constructor | src/catmull_ros/include/catmull_ros/catmull.hpp:148-153 | empty, open spline; min_t is the largest finite double and max_t the smallest positive normal double |
| Catmull.CatmullSpline.R | src/catmull_ros/include/catmull_ros/catmull.hpp:155-174 | the scan returns the selected segment's position, or zero if none is selected |
| Catmull.CatmullSpline.DDR | src/catmull_ros/include/catmull_ros/catmull.hpp:176-195 | the same selection, returning the second derivative or zero |
| Catmull.CatmullSpline.DR | src/catmull_ros/include/catmull_ros/catmull.hpp:197-216 | the same selection, returning the first derivative or zero |
| Catmull.CatmullSpline.AddControlVertex | src/catmull_ros/include/catmull_ros/catmull.hpp:218-224 | appends exactly one fresh vertex at p, with no links and zero velocity and coefficients; earlier vertices and points are unchanged |
| Catmull.CatmullSpline.AddControlVertexAt | src/catmull_ros/include/catmull_ros/catmull.hpp:226-231 | appends exactly one fresh vertex at p with parameter t, no links and zero velocity and coefficients; earlier vertices are unchanged |
| Catmull.CatmullSpline.Close | src/catmull_ros/include/catmull_ros/catmull.hpp:248-260 | sets closed; max_t becomes the last vertex's t plus the planar chord back to vertex 0 |
| Catmull.CatmullSpline.LinkAndClose | src/catmull_ros/include/catmull_ros/catmull.hpp:265-272 | every vertex is linked to its cyclic neighbours and has the chord-length parameter; the spline is closed with max_t at the wrap end |
| Catmull.CatmullSpline.LinkNext | src/catmull_ros/include/catmull_ros/catmull.hpp:267-271 | one link step: vertex i gets its neighbours and parameter; the earlier vertices stay linked |
| Catmull.CatmullSpline.InitializeVelocities | src/catmull_ros/include/catmull_ros/catmull.hpp:274-277 | every vertex gets its centred velocity, with wrap-around neighbours; links and parameters are untouched |
| Catmull.CatmullSpline.UpdateBounds | src/catmull_ros/include/catmull_ros/catmull.hpp:278-289 | min_t becomes the smaller of its old value and every parameter, max_t the larger, and each is either the old value or some vertex's parameter |
| Catmull.CatmullSpline.InitSegments | src/catmull_ros/include/catmull_ros/catmull.hpp:290-294 | every vertex holds the coefficients of the segment that starts at it |
| Catmull.CatmullSpline.InitSegmentAt | src/catmull_ros/include/catmull_ros/catmull.hpp:290-293 | one interior step: vertex i holds its segment's coefficients and the earlier vertices keep theirs |
| Catmull.CatmullSpline.InitWrapSegment | src/catmull_ros/include/catmull_ros/catmull.hpp:294 | the last vertex holds the wrap segment's coefficients, whose span is the closing chord |
| Catmull.CatmullSpline.KnotsWithinWrap | src/catmull_ros/include/catmull_ros/catmull.hpp:277-289 | after linking, vertex 0 has t = 0 and every t lies in [0, wrap end], so the min/max loop gives min_t = 0 and leaves max_t at the value set by close |
| Catmull.CatmullSpline.SegmentFromCoefficients | src/catmull_ros/include/catmull_ros/catmull.hpp:39-48 | coefficients computed from a vertex and its successor over the segment's span are the specified segment coefficients |
| Catmull.CatmullSpline.ConstructClose | src/catmull_ros/include/catmull_ros/catmull.hpp:262-295 | the vertices and their points are unchanged; afterwards every link, parameter, velocity and coefficient is the specified one, closed holds, min_t = 0 and max_t is the wrap end |
| Catmull.CatmullSpline.KnotsAreParameters | src/catmull_ros/include/catmull_ros/catmull.hpp:265-271 | after construction each knot is the chord-length parameter, overwriting any t given to addControlVertex; the first knot is 0, the knots never decrease, and all lie below max_t |
| Catmull.CatmullSpline.InterpolatesAtKnots | src/catmull_ros/include/catmull_ros/catmull.hpp:155-174 | at knot i the constructed curve's position is p[i], its velocity is vertex i's centred velocity, and its acceleration is twice the segment's quadratic coefficient |
| Catmull.CatmullSpline.ZeroOutsideDomain | src/catmull_ros/include/catmull_ros/catmull.hpp:172-173 | for u < 0 or u >= max_t, position, velocity and acceleration are all zero |
| Catmull.CatmullSpline.SegmentsJoin | src/catmull_ros/include/catmull_ros/catmull.hpp:290-294 | segment i evaluated at its end (the next knot, or max_t for the wrap segment) gives the next vertex's point and velocity; in particular hermite(max_t) on the last vertex is p[0] |
| Catmull.ChordNonNegative | src/catmull_ros/include/catmull_ros/catmull.hpp:66-68 | a planar chord length is never negative |
| Catmull.ChordSymmetric | src/catmull_ros/include/catmull_ros/catmull.hpp:75-82 | the planar chord does not depend on direction |
| Catmull.ChordsNonZeroWhenNeighboursDiffer | src/catmull_ros/include/catmull_ros/catmull.hpp:84-87 | neighbours that differ in x or y give non-zero chords, so no division in construction divides by zero |
| Catmull.ParamMonotone | src/catmull_ros/include/catmull_ros/catmull.hpp:61-69 | chord-length parameters never decrease along the vertex sequence |
| Catmull.ParamBounds | src/catmull_ros/include/catmull_ros/catmull.hpp:248-260 | the first parameter is 0, and every parameter lies between 0 and the wrap end |
| Catmull.ParamIncreasing | src/catmull_ros/include/catmull_ros/catmull.hpp:265-272 | with non-zero chords the parameters increase strictly, and the wrap end lies beyond the last parameter |
| Catmull.TwoVertexVelocitiesZero | src/catmull_ros/include/catmull_ros/catmull.hpp:71-88 | with exactly two vertices both centred velocities are zero |
| Catmull.SelectFindsSegment | src/catmull_ros/include/catmull_ros/catmull.hpp:157-163 | with non-decreasing knots, a u in [t[i], t[i+1]) selects segment i |
| Catmull.SelectFindsWrap | src/catmull_ros/include/catmull_ros/catmull.hpp:164-170 | on a closed spline with non-decreasing knots, a u in [t[last], max_t) selects the last vertex |
| Catmull.SelectOutside | src/catmull_ros/include/catmull_ros/catmull.hpp:155-174 | with non-decreasing knots bounded by max_t, a u below t[0] or at or above max_t selects nothing |

## Left out

- `tbb::concurrent_vector` and its concurrency: the vertex store is a plain sequence field, and nothing runs in parallel.
- `shared_ptr` ownership, reference counts and the prev/next reference cycle. Links are plain object references, and vertex lifetime is not modelled.
- IEEE-754 doubles are modelled as reals. Rounding, infinities and NaN are not modelled, so every division requires a non-zero divisor.
- The sentinel constants are the shortest decimal spellings of `numeric_limits<double>::max()` and `min()`, not their exact binary values. Construction overwrites both.
- `sqrt` is a library routine, not modelled. Every member that takes a square root receives it as the parameter `sqrt`. The facts it must satisfy (a non-negative root whose square is its argument) are the predicate `IsSqrt`.
- Catmull.CatmullSpline.ConstructClose requires at least two vertices, and that every vertex differs from its cyclic successor in x or y. In the source, equal neighbours divide by zero and fewer than two vertices index out of range; the model does not give those inputs a result.
- Catmull.CatmullSpline.R, DR and DDR require at least one vertex. With none, the source's `vertices.size() - 1` wraps around.
- Catmull.ControlVertex.FromPosition leaves the parameter unconstrained, where the source leaves it uninitialised. Evaluating before construction is not given a meaning beyond that.
- Catmull.CatmullSpline.InterpolatesAtKnots, ZeroOutsideDomain and SegmentsJoin are stated for a spline built by ConstructClose, the library's only construction path. Open-path evaluation with user-given parameters is covered only by R, DR and DDR's general contracts.
- `getT`, `getP`, `getV`, `getControlVertex`, `getMinT` and `getMaxT` are modelled as reading functions without a contract of their own. They return their field.
- `<iostream>` is included but unused by the source. The test programs (gtest drivers, timing checks, random inputs) are not part of this model.

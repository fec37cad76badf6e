/** The cubic Hermite algebra of one spline segment.
 *
 * A segment starts at a knot with position p and velocity v and ends, after a
 * parameter span d, at the next knot with position np and velocity nv.  Its
 * polynomial in the local offset dt is a3*dt^3 + a2*dt^2 + a1*dt + a0 with
 * a0 = p, a1 = v and a2, a3 given by CoeffA2 and CoeffA3.  Every vector
 * operator involved is componentwise, so each formula is written once for a
 * single component (the scalar functions) and applied to x, y and z; the
 * scalar expressions keep the source's operand order and grouping.
 */
module HermiteSegment {
  import opened Vectors

  /** One component of the quadratic coefficient: 3(p1 - p0)/d^2 - (v1 + 2 v0)/d. */
  function ScalarA2(p0: real, v0: real, p1: real, v1: real, d: real): real
    requires d != 0.0
  {
    (p1 - p0) * 3.0 / (d * d) - (v1 + v0 * 2.0) / d
  }

  /** One component of the cubic coefficient: 2(p0 - p1)/d^3 + (v1 + v0)/d^2. */
  function ScalarA3(p0: real, v0: real, p1: real, v1: real, d: real): real
    requires d != 0.0
  {
    (p0 - p1) * 2.0 / (d * d * d) + (v1 + v0) / (d * d)
  }

  /** One component of the polynomial a3*dt^3 + a2*dt^2 + a1*dt + a0. */
  function Cubic(a0: real, a1: real, a2: real, a3: real, dt: real): real {
    a3 * (dt * dt * dt) + a2 * dt * dt + a1 * dt + a0
  }

  /** One component of its first derivative 3*a3*dt^2 + 2*a2*dt + a1. */
  function CubicSlope(a1: real, a2: real, a3: real, dt: real): real {
    a3 * 3.0 * (dt * dt) + a2 * 2.0 * dt + a1
  }

  /** One component of its second derivative 6*a3*dt + 2*a2. */
  function CubicCurvature(a2: real, a3: real, dt: real): real {
    a3 * 6.0 * dt + a2 * 2.0
  }

  function CoeffA2(p: Vector3, v: Vector3, np: Vector3, nv: Vector3, d: real): Vector3
    requires d != 0.0
  {
    Vector3(ScalarA2(p.x, v.x, np.x, nv.x, d),
            ScalarA2(p.y, v.y, np.y, nv.y, d),
            ScalarA2(p.z, v.z, np.z, nv.z, d))
  }

  function CoeffA3(p: Vector3, v: Vector3, np: Vector3, nv: Vector3, d: real): Vector3
    requires d != 0.0
  {
    Vector3(ScalarA3(p.x, v.x, np.x, nv.x, d),
            ScalarA3(p.y, v.y, np.y, nv.y, d),
            ScalarA3(p.z, v.z, np.z, nv.z, d))
  }

  /** The segment's position at local offset dt. */
  function Position(a0: Vector3, a1: Vector3, a2: Vector3, a3: Vector3, dt: real): Vector3 {
    Vector3(Cubic(a0.x, a1.x, a2.x, a3.x, dt),
            Cubic(a0.y, a1.y, a2.y, a3.y, dt),
            Cubic(a0.z, a1.z, a2.z, a3.z, dt))
  }

  /** The segment's velocity (first derivative) at local offset dt. */
  function Velocity(a1: Vector3, a2: Vector3, a3: Vector3, dt: real): Vector3 {
    Vector3(CubicSlope(a1.x, a2.x, a3.x, dt),
            CubicSlope(a1.y, a2.y, a3.y, dt),
            CubicSlope(a1.z, a2.z, a3.z, dt))
  }

  /** The segment's acceleration (second derivative) at local offset dt. */
  function Acceleration(a2: Vector3, a3: Vector3, dt: real): Vector3 {
    Vector3(CubicCurvature(a2.x, a3.x, dt),
            CubicCurvature(a2.y, a3.y, dt),
            CubicCurvature(a2.z, a3.z, dt))
  }

  /** At the segment's own knot (dt = 0) the polynomial gives a0. */
  lemma PositionAtStart(a0: Vector3, a1: Vector3, a2: Vector3, a3: Vector3)
    ensures Position(a0, a1, a2, a3, 0.0) == a0
  {
  }

  /** At the segment's own knot the first derivative is a1. */
  lemma VelocityAtStart(a1: Vector3, a2: Vector3, a3: Vector3)
    ensures Velocity(a1, a2, a3, 0.0) == a1
  {
  }

  /** At the segment's own knot the second derivative is 2*a2. */
  lemma AccelerationAtStart(a2: Vector3, a3: Vector3)
    ensures Acceleration(a2, a3, 0.0) == Scale(a2, 2.0)
  {
  }

  /** One component of the end position: the cubic reaches p1 after the span d. */
  lemma ScalarEndPosition(p0: real, v0: real, p1: real, v1: real, d: real)
    requires d != 0.0
    ensures Cubic(p0, v0, ScalarA2(p0, v0, p1, v1, d), ScalarA3(p0, v0, p1, v1, d), d) == p1
  {
  }

  /** One component of the end velocity: the slope reaches v1 after the span d. */
  lemma ScalarEndVelocity(p0: real, v0: real, p1: real, v1: real, d: real)
    requires d != 0.0
    ensures CubicSlope(v0, ScalarA2(p0, v0, p1, v1, d), ScalarA3(p0, v0, p1, v1, d), d) == v1
  {
  }

  /** The C1 end conditions of a segment: over a non-zero span d, the cubic
   * built from CoeffA2 and CoeffA3 ends at np with velocity nv. */
  lemma EndConditions(p: Vector3, v: Vector3, np: Vector3, nv: Vector3, d: real)
    requires d != 0.0
    ensures Position(p, v, CoeffA2(p, v, np, nv, d), CoeffA3(p, v, np, nv, d), d) == np
    ensures Velocity(v, CoeffA2(p, v, np, nv, d), CoeffA3(p, v, np, nv, d), d) == nv
  {
    ScalarEndPosition(p.x, v.x, np.x, nv.x, d);
    ScalarEndPosition(p.y, v.y, np.y, nv.y, d);
    ScalarEndPosition(p.z, v.z, np.z, nv.z, d);
    ScalarEndVelocity(p.x, v.x, np.x, nv.x, d);
    ScalarEndVelocity(p.y, v.y, np.y, nv.y, d);
    ScalarEndVelocity(p.z, v.z, np.z, nv.z, d);
  }
}

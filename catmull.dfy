/** A closed Catmull-Rom spline through 3-D control vertices.
 *
 * Each control vertex gets a parameter t equal to the cumulative 2-D (x, y)
 * chord length from vertex 0, a centred-difference velocity, and the cubic
 * Hermite coefficients of the segment that starts at it; the last vertex's
 * segment wraps back to vertex 0.  The spline evaluates position, velocity
 * and acceleration by locating the segment whose knot interval contains the
 * query parameter.
 *
 * The square root is a library routine: it is a parameter `sqrt`, and the
 * facts the model relies on are stated by IsSqrt.
 */
module Catmull {
  import opened Vectors
  import HermiteSegment

  datatype Option<T> = None | Some(value: T)

  /** The largest finite double, the spline's initial min_t. */
  const DoubleMax: real := 1.7976931348623157e308
  /** The smallest positive normal double, the spline's initial max_t. */
  const DoubleMinPositive: real := 2.2250738585072014e-308

  // ---------------------------------------------------------------------
  // Specification: chord lengths, parameters, velocities, coefficients
  // ---------------------------------------------------------------------

  /** sqrt returns the non-negative square root of every non-negative real. */
  ghost predicate IsSqrt(sqrt: real -> real) {
    forall x :: 0.0 <= x ==> RootOf(sqrt, x)
  }

  /** sqrt(x) is the non-negative square root of x. */
  ghost predicate RootOf(sqrt: real -> real, x: real) {
    0.0 <= sqrt(x) && sqrt(x) * sqrt(x) == x
  }

  /** The squared length of the planar offset (dx, dy). */
  function SumSquares(dx: real, dy: real): real {
    dx * dx + dy * dy
  }

  /** The length of the planar offset (dx, dy), as the source computes it. */
  function Norm2D(sqrt: real -> real, dx: real, dy: real): real {
    sqrt(SumSquares(dx, dy))
  }

  /** The chord from a to b measured in the x-y plane only (z is ignored). */
  function Chord2D(sqrt: real -> real, a: Vector3, b: Vector3): real {
    Norm2D(sqrt, b.x - a.x, b.y - a.y)
  }

  /** The cyclic successor of index i among n vertices, (i + 1) % n. */
  function Succ(i: nat, n: nat): nat
    requires i < n
  {
    if i == n - 1 then 0 else i + 1
  }

  /** The cyclic predecessor of index i among n vertices, (i - 1 + n) % n. */
  function Pred(i: nat, n: nat): nat
    requires i < n
  {
    if i == 0 then n - 1 else i - 1
  }

  /** Every vertex differs from its cyclic successor in x or in y. */
  ghost predicate NeighboursDiffer(ps: seq<Vector3>) {
    forall i :: 0 <= i < |ps| ==>
      ps[i].x != ps[Succ(i, |ps|)].x || ps[i].y != ps[Succ(i, |ps|)].y
  }

  /** No chord between cyclic neighbours has length zero, so no division by
   * a chord length or a parameter difference divides by zero. */
  ghost predicate ChordsNonZero(sqrt: real -> real, ps: seq<Vector3>) {
    forall i :: 0 <= i < |ps| ==> Chord2D(sqrt, ps[i], ps[Succ(i, |ps|)]) != 0.0
  }

  /** The parameter of vertex i: 0 for the first vertex, then the chord to the
   * previous vertex added to that vertex's parameter. */
  function Param(sqrt: real -> real, ps: seq<Vector3>, i: nat): real
    requires i < |ps|
  {
    if i == 0 then 0.0 else Chord2D(sqrt, ps[i - 1], ps[i]) + Param(sqrt, ps, i - 1)
  }

  /** The parameter at which the wrap segment (last vertex back to vertex 0) ends. */
  function WrapEnd(sqrt: real -> real, ps: seq<Vector3>): real
    requires 1 <= |ps|
  {
    Chord2D(sqrt, ps[|ps| - 1], ps[0]) + Param(sqrt, ps, |ps| - 1)
  }

  /** The parameter span of the segment starting at vertex i. */
  function Span(sqrt: real -> real, ps: seq<Vector3>, i: nat): real
    requires i < |ps|
  {
    Chord2D(sqrt, ps[i], ps[Succ(i, |ps|)])
  }

  /** The centred-difference velocity at p: the mean of the forward quotient
   * (pp - p)/dp and the backward quotient (p - pm)/dm. */
  function CentredVelocity(pm: Vector3, p: Vector3, pp: Vector3, dm: real, dp: real): Vector3
    requires dm != 0.0 && dp != 0.0
  {
    Div(Add(Div(Sub(pp, p), dp), Div(Sub(p, pm), dm)), 2.0)
  }

  /** The velocity of vertex i of a closed spline through ps. */
  function VelocityAt(sqrt: real -> real, ps: seq<Vector3>, i: nat): Vector3
    requires 2 <= |ps| && i < |ps| && ChordsNonZero(sqrt, ps)
  {
    var j, k := Pred(i, |ps|), Succ(i, |ps|);
    assert Succ(j, |ps|) == i;
    CentredVelocity(ps[j], ps[i], ps[k], Chord2D(sqrt, ps[j], ps[i]), Chord2D(sqrt, ps[i], ps[k]))
  }

  /** The quadratic coefficient of the segment starting at vertex i. */
  function SegmentA2(sqrt: real -> real, ps: seq<Vector3>, i: nat): Vector3
    requires 2 <= |ps| && i < |ps| && ChordsNonZero(sqrt, ps)
  {
    var k := Succ(i, |ps|);
    HermiteSegment.CoeffA2(ps[i], VelocityAt(sqrt, ps, i), ps[k], VelocityAt(sqrt, ps, k), Span(sqrt, ps, i))
  }

  /** The cubic coefficient of the segment starting at vertex i. */
  function SegmentA3(sqrt: real -> real, ps: seq<Vector3>, i: nat): Vector3
    requires 2 <= |ps| && i < |ps| && ChordsNonZero(sqrt, ps)
  {
    var k := Succ(i, |ps|);
    HermiteSegment.CoeffA3(ps[i], VelocityAt(sqrt, ps, i), ps[k], VelocityAt(sqrt, ps, k), Span(sqrt, ps, i))
  }

  // ---------------------------------------------------------------------
  // Specification: segment selection
  // ---------------------------------------------------------------------

  /** u lies in the half-open knot interval [ts[j], ts[j+1]). */
  predicate InSegment(ts: seq<real>, j: nat, u: real)
    requires j + 1 < |ts|
  {
    ts[j] <= u && ts[j + 1] > u
  }

  /** No interval before index k contains u. */
  ghost predicate NoSegmentBefore(ts: seq<real>, k: nat, u: real)
    requires k < |ts|
  {
    forall j :: 0 <= j < k ==> !InSegment(ts, j, u)
  }

  /** The first interval, from index `from` on, that contains u. */
  function FirstMatch(ts: seq<real>, u: real, from: nat): (r: Option<nat>)
    requires from < |ts|
    decreases |ts| - from
    ensures r.Some? ==> from <= r.value < |ts| - 1 && InSegment(ts, r.value, u)
    ensures r.Some? ==> forall j :: from <= j < r.value ==> !InSegment(ts, j, u)
    ensures r.None? ==> forall j :: from <= j < |ts| - 1 ==> !InSegment(ts, j, u)
  {
    if from == |ts| - 1 then None
    else if InSegment(ts, from, u) then Some(from)
    else FirstMatch(ts, u, from + 1)
  }

  /** The segment that evaluation at u delegates to: the first interval
   * [ts[i], ts[i+1]) containing u; failing that, on a closed spline, the
   * last vertex when ts[last] <= u < maxT; otherwise none. */
  function Select(ts: seq<real>, closed: bool, maxT: real, u: real): (r: Option<nat>)
    requires 1 <= |ts|
    ensures r.Some? ==> r.value < |ts|
    ensures r.Some? && r.value < |ts| - 1 ==>
              InSegment(ts, r.value, u) && NoSegmentBefore(ts, r.value, u)
    ensures r == Some(|ts| - 1) ==>
              NoSegmentBefore(ts, |ts| - 1, u) && closed && ts[|ts| - 1] <= u && maxT > u
    ensures r.None? ==>
              NoSegmentBefore(ts, |ts| - 1, u) && !(closed && ts[|ts| - 1] <= u && maxT > u)
  {
    match FirstMatch(ts, u, 0)
    case Some(i) => Some(i)
    case None => if closed && ts[|ts| - 1] <= u && maxT > u then Some(|ts| - 1) else None
  }

  ghost predicate NonDecreasing(ts: seq<real>) {
    forall i, j :: 0 <= i <= j < |ts| ==> ts[i] <= ts[j]
  }

  // ---------------------------------------------------------------------
  // Control vertices
  // ---------------------------------------------------------------------

  /** The positions of a sequence of vertices, in order. */
  ghost function PositionsOf(vs: seq<ControlVertex>): (r: seq<Vector3>)
    reads vs`p
    ensures |r| == |vs| && forall i :: 0 <= i < |vs| ==> r[i] == vs[i].p
  {
    if vs == [] then [] else PositionsOf(vs[..|vs| - 1]) + [vs[|vs| - 1].p]
  }

  /** The parameters of a sequence of vertices, in order. */
  ghost function ParametersOf(vs: seq<ControlVertex>): (r: seq<real>)
    reads vs`t
    ensures |r| == |vs| && forall i :: 0 <= i < |vs| ==> r[i] == vs[i].t
  {
    if vs == [] then [] else ParametersOf(vs[..|vs| - 1]) + [vs[|vs| - 1].t]
  }

  /** No vertex object occurs twice in vs. */
  ghost predicate Distinct(vs: seq<ControlVertex>)
    decreases |vs|
  {
    vs == [] || (vs[|vs| - 1] !in vs[..|vs| - 1] && Distinct(vs[..|vs| - 1]))
  }

  /** Different slots of a distinct sequence hold different objects. */
  lemma {:induction false} DistinctAt(vs: seq<ControlVertex>, i: nat, j: nat)
    requires Distinct(vs) && i < |vs| && j < |vs| && i != j
    ensures vs[i] != vs[j]
    decreases |vs|
  {
    var k := |vs| - 1;
    if i == k {
      assert vs[j] in vs[..k];
    } else if j == k {
      assert vs[i] in vs[..k];
    } else {
      DistinctAt(vs[..k], i, j);
    }
  }

  /** In a distinct sequence no slot's object occurs before it. */
  lemma NotBefore(vs: seq<ControlVertex>, i: nat)
    requires Distinct(vs) && i < |vs|
    ensures vs[i] !in vs[..i]
  {
    if vs[i] in vs[..i] {
      var j :| 0 <= j < i && vs[j] == vs[i];
      DistinctAt(vs, j, i);
    }
  }

  /** One knot of the spline.  prev and next are non-owning links to the
   * neighbouring vertices; a0..a3 are the coefficients of the segment that
   * starts here. */
  class ControlVertex {
    var t: real
    var p: Vector3
    var v: Vector3
    var prev: ControlVertex?
    var next: ControlVertex?
    var a0: Vector3
    var a1: Vector3
    var a2: Vector3
    var a3: Vector3

    /** No links yet, and the velocity and every coefficient are the zero vector. */
    ghost predicate Unlinked()
      reads this
    {
      && v == Zero && a0 == Zero && a1 == Zero && a2 == Zero && a3 == Zero
      && prev == null && next == null
    }

    /** A vertex at position p with an explicit parameter t. */
    constructor (p: Vector3, t: real)
      ensures this.p == p && this.t == t
      ensures v == Zero && a0 == Zero && a1 == Zero && a2 == Zero && a3 == Zero
      ensures prev == null && next == null
    {
      this.t := t;
      this.p := p;
      v, a0, a1, a2, a3 := Zero, Zero, Zero, Zero, Zero;
      prev, next := null, null;
    }

    /** A vertex at position p whose parameter is left unset. */
    constructor FromPosition(p: Vector3)
      ensures this.p == p
      ensures v == Zero && a0 == Zero && a1 == Zero && a2 == Zero && a3 == Zero
      ensures prev == null && next == null
    {
      this.p := p;
      v, a0, a1, a2, a3 := Zero, Zero, Zero, Zero, Zero;
      prev, next := null, null;
    }

    function GetT(): real
      reads this
    {
      t
    }

    function GetP(): Vector3
      reads this
    {
      p
    }

    function GetV(): Vector3
      reads this
    {
      v
    }

    /** Coefficients of the segment to next, whose span is next.t - t. */
    method InitHermite()
      requires next != null && next.t - t != 0.0
      modifies this`a0, this`a1, this`a2, this`a3
      ensures a0 == p && a1 == v
      ensures a2 == HermiteSegment.CoeffA2(p, v, next.p, next.v, next.t - t)
      ensures a3 == HermiteSegment.CoeffA3(p, v, next.p, next.v, next.t - t)
    {
      var dtp1 := next.GetT() - t;
      a0 := p;
      a1 := v;
      a2 := HermiteSegment.CoeffA2(p, v, next.GetP(), next.GetV(), dtp1);
      a3 := HermiteSegment.CoeffA3(p, v, next.GetP(), next.GetV(), dtp1);
    }

    /** Links the first vertex of the path; its parameter is 0. */
    method InitializeStart(prev: ControlVertex?, next: ControlVertex?)
      modifies this`prev, this`next, this`t
      ensures this.prev == prev && this.next == next && t == 0.0
    {
      this.prev := prev;
      this.next := next;
      this.t := 0.0;
    }

    /** Links a later vertex; its parameter is the planar chord from prev
     * added to prev's parameter. */
    method Initialize(prev: ControlVertex, next: ControlVertex?, sqrt: real -> real)
      modifies this`prev, this`next, this`t
      ensures this.prev == prev && this.next == next
      ensures t == Chord2D(sqrt, prev.p, p) + old(prev.t)
    {
      this.prev := prev;
      this.next := next;
      var dx := p.x - prev.GetP().x;
      var dy := p.y - prev.GetP().y;
      this.t := Norm2D(sqrt, dx, dy) + prev.GetT();
    }

    /** The centred-difference velocity from the two neighbours. */
    method InitializeVelocity(sqrt: real -> real)
      requires prev != null && next != null
      requires Chord2D(sqrt, prev.p, p) != 0.0 && Chord2D(sqrt, p, next.p) != 0.0
      modifies this`v
      ensures v == CentredVelocity(prev.p, p, next.p, Chord2D(sqrt, prev.p, p), Chord2D(sqrt, p, next.p))
    {
      var pm1 := prev.GetP();
      var tm1 := 0.0;
      var dxm1 := p.x - pm1.x;
      var dym1 := p.y - pm1.y;
      var t0 := Norm2D(sqrt, dxm1, dym1);

      var pp1 := next.GetP();
      var dxp1 := pp1.x - p.x;
      var dyp1 := pp1.y - p.y;
      var t1 := Norm2D(sqrt, dxp1, dyp1) + t0;

      var dtp1 := t1 - t0;
      var dtm1 := t0 - tm1;
      v := Div(Add(Div(Sub(next.GetP(), p), dtp1), Div(Sub(p, prev.GetP()), dtm1)), 2.0);
    }

    /** Coefficients of the wrap segment: its span is the planar chord to
     * next, not next.t - t. */
    method InitHermiteClose(sqrt: real -> real)
      requires next != null && Chord2D(sqrt, p, next.p) != 0.0
      modifies this`a0, this`a1, this`a2, this`a3
      ensures a0 == p && a1 == v
      ensures a2 == HermiteSegment.CoeffA2(p, v, next.p, next.v, Chord2D(sqrt, p, next.p))
      ensures a3 == HermiteSegment.CoeffA3(p, v, next.p, next.v, Chord2D(sqrt, p, next.p))
    {
      var pp1 := next.GetP();
      var dxp1 := pp1.x - p.x;
      var dyp1 := pp1.y - p.y;
      var t1 := Norm2D(sqrt, dxp1, dyp1) + t;
      var dtp1 := t1 - t;
      a0 := p;
      a1 := v;
      a2 := HermiteSegment.CoeffA2(p, v, next.GetP(), next.GetV(), dtp1);
      a3 := HermiteSegment.CoeffA3(p, v, next.GetP(), next.GetV(), dtp1);
    }

    /** Second derivative of this vertex's segment at parameter t0. */
    function DDHermite(t0: real): (r: Vector3)
      reads this
      ensures t0 == t ==> r == Scale(a2, 2.0)
    {
      var dt := t0 - t;
      HermiteSegment.AccelerationAtStart(a2, a3);
      HermiteSegment.Acceleration(a2, a3, dt)
    }

    /** First derivative of this vertex's segment at parameter t0. */
    function DHermite(t0: real): (r: Vector3)
      reads this
      ensures t0 == t ==> r == a1
    {
      var dt := t0 - t;
      HermiteSegment.VelocityAtStart(a1, a2, a3);
      HermiteSegment.Velocity(a1, a2, a3, dt)
    }

    /** Position on this vertex's segment at parameter t0. */
    function Hermite(t0: real): (r: Vector3)
      reads this
      ensures t0 == t ==> r == a0
    {
      var dt := t0 - t;
      HermiteSegment.PositionAtStart(a0, a1, a2, a3);
      HermiteSegment.Position(a0, a1, a2, a3, dt)
    }
  }

  // ---------------------------------------------------------------------
  // The spline
  // ---------------------------------------------------------------------

  /** An ordered, append-only collection of control vertices, closed into a
   * loop by ConstructClose and then evaluated by R, DR and DDR. */
  class CatmullSpline {
    var vertices: seq<ControlVertex>
    var minT: real
    var maxT: real
    var closed: bool

    /** Distinct vertex objects (each is owned by exactly one slot), and a
     * non-negative lower bound (the initial sentinel or the computed 0). */
    ghost predicate Valid()
      reads this`vertices, this`minT
    {
      && Distinct(vertices)
      && 0.0 <= minT
    }

    /** The positions of the vertices, in order. */
    ghost function Points(): seq<Vector3>
      reads this`vertices, vertices`p
    {
      PositionsOf(vertices)
    }

    /** The parameters of the vertices, in order. */
    ghost function Knots(): seq<real>
      reads this`vertices, vertices`t
    {
      ParametersOf(vertices)
    }

    /** ps lists the positions of the vertices. */
    ghost predicate HasPositions(ps: seq<Vector3>)
      reads this`vertices, vertices`p
    {
      |ps| == |vertices| && forall i :: 0 <= i < |vertices| ==> vertices[i].p == ps[i]
    }

    /** Vertex i carries the parameter of the chord-length rule and is linked
     * to its cyclic neighbours. */
    ghost predicate LinkedAt(sqrt: real -> real, ps: seq<Vector3>, i: nat)
      requires i < |vertices| == |ps|
      reads this`vertices, GetControlVertex(i)`t, GetControlVertex(i)`prev, GetControlVertex(i)`next
    {
      var n, cv := |vertices|, vertices[i];
      && cv.t == Param(sqrt, ps, i)
      && cv.prev == vertices[Pred(i, n)]
      && cv.next == vertices[Succ(i, n)]
    }

    /** Every vertex is linked and carries its parameter. */
    ghost predicate AllLinked(sqrt: real -> real, ps: seq<Vector3>)
      reads this`vertices, vertices`t, vertices`prev, vertices`next
    {
      |ps| == |vertices| && LinkedBelow(sqrt, ps, |vertices|)
    }

    /** The vertices before slot k are linked and carry their parameters. */
    ghost predicate LinkedBelow(sqrt: real -> real, ps: seq<Vector3>, k: nat)
      requires k <= |vertices| == |ps|
      reads this`vertices, vertices[..k]`t, vertices[..k]`prev, vertices[..k]`next
    {
      forall i :: 0 <= i < k ==> LinkedAt(sqrt, ps, i)
    }

    /** The prefix of linked vertices grows by one slot. */
    lemma LinkedExtend(sqrt: real -> real, ps: seq<Vector3>, k: nat)
      requires k < |vertices| == |ps|
      requires LinkedBelow(sqrt, ps, k) && LinkedAt(sqrt, ps, k)
      ensures LinkedBelow(sqrt, ps, k + 1)
    {
    }

    /** Every vertex carries its centred-difference velocity. */
    ghost predicate AllVelocities(sqrt: real -> real, ps: seq<Vector3>)
      requires 2 <= |ps| == |vertices| && ChordsNonZero(sqrt, ps)
      reads this`vertices, vertices`v
    {
      forall i :: 0 <= i < |vertices| ==> VelocityInitialized(sqrt, ps, i)
    }

    /** Every vertex carries the coefficients of its segment. */
    ghost predicate AllSegments(sqrt: real -> real, ps: seq<Vector3>)
      requires 2 <= |ps| == |vertices| && ChordsNonZero(sqrt, ps)
      reads this`vertices, vertices`a0, vertices`a1, vertices`a2, vertices`a3
    {
      SegmentsBelow(sqrt, ps, |vertices|)
    }

    /** The vertices before slot k carry the coefficients of their segments. */
    ghost predicate SegmentsBelow(sqrt: real -> real, ps: seq<Vector3>, k: nat)
      requires 2 <= |ps| == |vertices| && ChordsNonZero(sqrt, ps) && k <= |vertices|
      reads this`vertices, vertices[..k]`a0, vertices[..k]`a1, vertices[..k]`a2, vertices[..k]`a3
    {
      forall i :: 0 <= i < k ==> SegmentInitialized(sqrt, ps, i)
    }

    /** Vertex i carries its centred-difference velocity. */
    ghost predicate VelocityInitialized(sqrt: real -> real, ps: seq<Vector3>, i: nat)
      requires 2 <= |ps| && i < |vertices| == |ps| && ChordsNonZero(sqrt, ps)
      reads this`vertices, GetControlVertex(i)`v
    {
      vertices[i].v == VelocityAt(sqrt, ps, i)
    }

    /** Vertex i carries the coefficients of the segment that starts at it. */
    ghost predicate SegmentInitialized(sqrt: real -> real, ps: seq<Vector3>, i: nat)
      requires 2 <= |ps| && i < |vertices| == |ps| && ChordsNonZero(sqrt, ps)
      reads this`vertices, GetControlVertex(i)`a0, GetControlVertex(i)`a1
      reads GetControlVertex(i)`a2, GetControlVertex(i)`a3
    {
      var cv := vertices[i];
      && cv.a0 == ps[i]
      && cv.a1 == VelocityAt(sqrt, ps, i)
      && cv.a2 == SegmentA2(sqrt, ps, i)
      && cv.a3 == SegmentA3(sqrt, ps, i)
    }

    /** The state ConstructClose leaves behind, for the positions ps. */
    ghost predicate ConstructedFrom(sqrt: real -> real, ps: seq<Vector3>)
      reads this, vertices
    {
      && Valid()
      && IsSqrt(sqrt)
      && 2 <= |ps| == |vertices|
      && ChordsNonZero(sqrt, ps)
      && closed
      && minT == 0.0
      && maxT == WrapEnd(sqrt, ps)
      && AllLinked(sqrt, ps)
      && AllVelocities(sqrt, ps)
      && AllSegments(sqrt, ps)
    }

    /** The state ConstructClose leaves behind. */
    ghost predicate Constructed(sqrt: real -> real)
      reads this, vertices
    {
      ConstructedFrom(sqrt, Points())
    }

    /** The segment that evaluation at u delegates to. */
    ghost function Segment(u: real): (r: Option<nat>)
      reads this, vertices
      requires 1 <= |vertices|
      ensures r.Some? ==> r.value < |vertices|
    {
      Select(Knots(), closed, maxT, u)
    }

    ghost function CurvePosition(u: real): Vector3
      reads this, vertices
      requires 1 <= |vertices|
    {
      match Segment(u)
      case Some(i) => vertices[i].Hermite(u)
      case None => Zero
    }

    ghost function CurveVelocity(u: real): Vector3
      reads this, vertices
      requires 1 <= |vertices|
    {
      match Segment(u)
      case Some(i) => vertices[i].DHermite(u)
      case None => Zero
    }

    ghost function CurveAcceleration(u: real): Vector3
      reads this, vertices
      requires 1 <= |vertices|
    {
      match Segment(u)
      case Some(i) => vertices[i].DDHermite(u)
      case None => Zero
    }

    /** An empty, open spline with the sentinel bounds. */
    constructor ()
      ensures Valid()
      ensures vertices == [] && !closed
      ensures minT == DoubleMax && maxT == DoubleMinPositive
    {
      vertices := [];
      minT := DoubleMax;
      maxT := DoubleMinPositive;
      closed := false;
    }

    /** Position at parameter t: the selected segment's cubic, or zero. */
    method R(t: real) returns (r: Vector3)
      requires 1 <= |vertices|
      ensures r == CurvePosition(t)
    {
      var i := 0;
      while i < |vertices| - 1
        invariant 0 <= i <= |vertices| - 1
        invariant NoSegmentBefore(Knots(), i, t)
      {
        if vertices[i].GetT() <= t && vertices[i + 1].GetT() > t {
          assert InSegment(Knots(), i, t);
          return vertices[i].Hermite(t);
        }
        i := i + 1;
      }
      if closed {
        if vertices[|vertices| - 1].GetT() <= t && maxT > t {
          return vertices[|vertices| - 1].Hermite(t);
        }
      }
      r := Zero;
    }

    /** Acceleration at parameter t: the selected segment's second derivative, or zero. */
    method DDR(t: real) returns (r: Vector3)
      requires 1 <= |vertices|
      ensures r == CurveAcceleration(t)
    {
      var i := 0;
      while i < |vertices| - 1
        invariant 0 <= i <= |vertices| - 1
        invariant NoSegmentBefore(Knots(), i, t)
      {
        if vertices[i].GetT() <= t && vertices[i + 1].GetT() > t {
          assert InSegment(Knots(), i, t);
          return vertices[i].DDHermite(t);
        }
        i := i + 1;
      }
      if closed {
        if vertices[|vertices| - 1].GetT() <= t && maxT > t {
          return vertices[|vertices| - 1].DDHermite(t);
        }
      }
      r := Zero;
    }

    /** Velocity at parameter t: the selected segment's first derivative, or zero. */
    method DR(t: real) returns (r: Vector3)
      requires 1 <= |vertices|
      ensures r == CurveVelocity(t)
    {
      var i := 0;
      while i < |vertices| - 1
        invariant 0 <= i <= |vertices| - 1
        invariant NoSegmentBefore(Knots(), i, t)
      {
        if vertices[i].GetT() <= t && vertices[i + 1].GetT() > t {
          assert InSegment(Knots(), i, t);
          return vertices[i].DHermite(t);
        }
        i := i + 1;
      }
      if closed {
        if vertices[|vertices| - 1].GetT() <= t && maxT > t {
          return vertices[|vertices| - 1].DHermite(t);
        }
      }
      r := Zero;
    }

    /** Appends a vertex at p whose parameter is left unset. */
    method AddControlVertex(p: Vector3)
      requires Valid()
      modifies this`vertices
      ensures Valid()
      ensures |vertices| == |old(vertices)| + 1 && vertices[..|old(vertices)|] == old(vertices)
      ensures fresh(vertices[|vertices| - 1]) && vertices[|vertices| - 1].Unlinked()
      ensures Points() == old(Points()) + [p]
    {
      var cv := new ControlVertex.FromPosition(p);
      vertices := vertices + [cv];
    }

    /** Appends a vertex at p with the explicit parameter t. */
    method AddControlVertexAt(p: Vector3, t: real)
      requires Valid()
      modifies this`vertices
      ensures Valid()
      ensures |vertices| == |old(vertices)| + 1 && vertices[..|old(vertices)|] == old(vertices)
      ensures fresh(vertices[|vertices| - 1]) && vertices[|vertices| - 1].t == t
      ensures vertices[|vertices| - 1].Unlinked()
      ensures Points() == old(Points()) + [p]
    {
      var cv := new ControlVertex(p, t);
      vertices := vertices + [cv];
    }

    function GetControlVertex(i: int): ControlVertex
      reads this`vertices
      requires 0 <= i < |vertices|
    {
      vertices[i]
    }

    function GetMinT(): real
      reads this
    {
      minT
    }

    function GetMaxT(): real
      reads this
    {
      maxT
    }

    /** Marks the spline closed; max_t becomes the end of the wrap segment. */
    method Close(sqrt: real -> real)
      requires 1 <= |vertices|
      modifies this`closed, this`maxT
      ensures closed
      ensures maxT == Chord2D(sqrt, vertices[|vertices| - 1].p, vertices[0].p) + vertices[|vertices| - 1].t
    {
      closed := true;
      var p := vertices[|vertices| - 1].GetP();
      var pp1 := vertices[0].GetP();
      var dxp1 := pp1.x - p.x;
      var dyp1 := pp1.y - p.y;
      var t1 := Norm2D(sqrt, dxp1, dyp1) + vertices[|vertices| - 1].GetT();
      maxT := t1;
    }

    /** The first stage of construction: vertex 0 is linked with parameter 0,
     * then every later vertex is linked to its neighbours (the last one back
     * to vertex 0) and given the chord from its predecessor plus the
     * predecessor's parameter; finally the spline is closed, which puts
     * max_t at the end of the wrap segment. */
    method LinkAndClose(sqrt: real -> real, ghost ps: seq<Vector3>)
      requires Valid() && 2 <= |vertices| && HasPositions(ps)
      modifies vertices`t, vertices`prev, vertices`next, this`closed, this`maxT
      ensures HasPositions(ps) && AllLinked(sqrt, ps)
      ensures closed && maxT == WrapEnd(sqrt, ps)
    {
      var n := |vertices|;
      vertices[0].InitializeStart(vertices[n - 1], vertices[1]);
      LinkedExtend(sqrt, ps, 0);
      var i := 1;
      while i < n - 1
        invariant 1 <= i <= n - 1
        invariant HasPositions(ps) && LinkedBelow(sqrt, ps, i)
      {
        LinkNext(sqrt, ps, i, vertices[i + 1]);
        i := i + 1;
      }
      LinkNext(sqrt, ps, n - 1, vertices[0]);
      assert vertices[n - 1].p == ps[n - 1] && vertices[0].p == ps[0];
      assert LinkedAt(sqrt, ps, n - 1);
      Close(sqrt);
    }

    /** Links vertex i (i >= 1) to its predecessor and to next, giving it the
     * chord-length parameter; the prefix of linked vertices grows by one. */
    method LinkNext(sqrt: real -> real, ghost ps: seq<Vector3>, i: nat, next: ControlVertex)
      requires Valid() && 1 <= i < |vertices| && HasPositions(ps) && LinkedBelow(sqrt, ps, i)
      requires next == vertices[Succ(i, |vertices|)]
      modifies GetControlVertex(i)`t, GetControlVertex(i)`prev, GetControlVertex(i)`next
      ensures HasPositions(ps) && LinkedBelow(sqrt, ps, i + 1)
    {
      assert LinkedAt(sqrt, ps, i - 1);
      assert vertices[i - 1].p == ps[i - 1] && vertices[i].p == ps[i];
      NotBefore(vertices, i);
      label before:
      vertices[i].Initialize(vertices[i - 1], next, sqrt);
      assert LinkedBelow(sqrt, ps, i) by {
        assert old@before(LinkedBelow(sqrt, ps, i));
      }
      LinkedExtend(sqrt, ps, i);
    }

    /** The velocity stage: every vertex gets its centred-difference velocity. */
    method InitializeVelocities(sqrt: real -> real, ghost ps: seq<Vector3>)
      requires Valid() && 2 <= |vertices| && HasPositions(ps) && ChordsNonZero(sqrt, ps)
      requires AllLinked(sqrt, ps)
      modifies vertices`v
      ensures closed == old(closed) && minT == old(minT) && maxT == old(maxT)
      ensures HasPositions(ps) && AllLinked(sqrt, ps) && AllVelocities(sqrt, ps)
    {
      var n := |vertices|;
      var i := 0;
      while i < n
        invariant 0 <= i <= n
        invariant HasPositions(ps) && AllLinked(sqrt, ps)
        invariant forall j :: 0 <= j < i ==> VelocityInitialized(sqrt, ps, j)
      {
        var k, m := Pred(i, n), Succ(i, n);
        assert LinkedAt(sqrt, ps, k) && LinkedAt(sqrt, ps, i) && Succ(k, n) == i;
        assert vertices[k].p == ps[k] && vertices[i].p == ps[i] && vertices[m].p == ps[m];
        label before:
        vertices[i].InitializeVelocity(sqrt);
        assert VelocityInitialized(sqrt, ps, i);
        forall j | 0 <= j < i
          ensures VelocityInitialized(sqrt, ps, j)
        {
          DistinctAt(vertices, j, i);
          assert old@before(VelocityInitialized(sqrt, ps, j));
        }
        i := i + 1;
      }
    }

    /** The bounds stage: min_t and max_t absorb every vertex parameter, so
     * min_t becomes the smaller of its old value and the least parameter and
     * max_t the larger of its old value and the greatest parameter. */
    method UpdateBounds()
      modifies this`minT, this`maxT
      ensures minT <= old(minT) && forall j :: 0 <= j < |vertices| ==> minT <= vertices[j].t
      ensures minT == old(minT) || exists j :: 0 <= j < |vertices| && minT == vertices[j].t
      ensures maxT >= old(maxT) && forall j :: 0 <= j < |vertices| ==> maxT >= vertices[j].t
      ensures maxT == old(maxT) || exists j :: 0 <= j < |vertices| && maxT == vertices[j].t
    {
      var i := 0;
      while i < |vertices|
        invariant 0 <= i <= |vertices|
        invariant minT <= old(minT) && forall j :: 0 <= j < i ==> minT <= vertices[j].t
        invariant minT == old(minT) || exists j :: 0 <= j < i && minT == vertices[j].t
        invariant maxT >= old(maxT) && forall j :: 0 <= j < i ==> maxT >= vertices[j].t
        invariant maxT == old(maxT) || exists j :: 0 <= j < i && maxT == vertices[j].t
      {
        var tmp := vertices[i].GetT();
        if tmp < minT {
          minT := tmp;
        }
        if tmp > maxT {
          maxT := tmp;
        }
        i := i + 1;
      }
    }

    /** The coefficient stage: every vertex but the last gets the segment to
     * its successor, the last one the wrap segment back to vertex 0. */
    method InitSegments(sqrt: real -> real, ghost ps: seq<Vector3>)
      requires Valid() && 2 <= |vertices| && HasPositions(ps) && ChordsNonZero(sqrt, ps)
      requires AllLinked(sqrt, ps) && AllVelocities(sqrt, ps)
      modifies vertices`a0, vertices`a1, vertices`a2, vertices`a3
      ensures closed == old(closed) && minT == old(minT) && maxT == old(maxT)
      ensures HasPositions(ps) && AllLinked(sqrt, ps) && AllVelocities(sqrt, ps) && AllSegments(sqrt, ps)
    {
      var n := |vertices|;
      var i := 0;
      while i < n - 1
        invariant 0 <= i <= n - 1
        invariant HasPositions(ps) && AllLinked(sqrt, ps) && AllVelocities(sqrt, ps)
        invariant SegmentsBelow(sqrt, ps, i)
      {
        assert LinkedAt(sqrt, ps, i) && LinkedAt(sqrt, ps, i + 1) && Succ(i, n) == i + 1;
        assert VelocityInitialized(sqrt, ps, i) && VelocityInitialized(sqrt, ps, i + 1);
        InitSegmentAt(sqrt, ps, i);
        i := i + 1;
      }
      assert LinkedAt(sqrt, ps, n - 1) && Succ(n - 1, n) == 0;
      assert VelocityInitialized(sqrt, ps, n - 1) && VelocityInitialized(sqrt, ps, 0);
      InitWrapSegment(sqrt, ps);
    }

    /** Vertex i (not the last) gets the segment to its successor, whose
     * parameter lies one chord further on; the prefix of initialised
     * segments grows by one. */
    method InitSegmentAt(sqrt: real -> real, ghost ps: seq<Vector3>, i: nat)
      requires Distinct(vertices) && 2 <= |vertices| == |ps| && i < |vertices| - 1 && ChordsNonZero(sqrt, ps)
      requires vertices[i].p == ps[i] && vertices[i + 1].p == ps[i + 1]
      requires vertices[i].next == vertices[i + 1]
      requires vertices[i + 1].t - vertices[i].t == Span(sqrt, ps, i)
      requires VelocityInitialized(sqrt, ps, i) && VelocityInitialized(sqrt, ps, i + 1)
      requires SegmentsBelow(sqrt, ps, i)
      modifies GetControlVertex(i)`a0, GetControlVertex(i)`a1, GetControlVertex(i)`a2, GetControlVertex(i)`a3
      ensures SegmentsBelow(sqrt, ps, i + 1)
    {
      var cv, nx := vertices[i], vertices[i + 1];
      assert Succ(i, |vertices|) == i + 1;
      NotBefore(vertices, i);
      label before:
      cv.InitHermite();
      assert SegmentInitialized(sqrt, ps, i) by {
        SegmentFromCoefficients(sqrt, ps, i, nx.t - cv.t);
      }
      assert SegmentsBelow(sqrt, ps, i) by {
        assert old@before(SegmentsBelow(sqrt, ps, i));
      }
      SegmentsExtend(sqrt, ps, i);
    }

    /** The coefficient stage for the wrap segment: the last vertex gets the
     * segment back to vertex 0, whose span is the closing chord. */
    method InitWrapSegment(sqrt: real -> real, ghost ps: seq<Vector3>)
      requires Distinct(vertices) && 2 <= |vertices| == |ps| && ChordsNonZero(sqrt, ps)
      requires vertices[|vertices| - 1].p == ps[|vertices| - 1] && vertices[0].p == ps[0]
      requires vertices[|vertices| - 1].next == vertices[0]
      requires VelocityInitialized(sqrt, ps, |vertices| - 1) && VelocityInitialized(sqrt, ps, 0)
      requires SegmentsBelow(sqrt, ps, |vertices| - 1)
      modifies GetControlVertex(|vertices| - 1)`a0, GetControlVertex(|vertices| - 1)`a1
      modifies GetControlVertex(|vertices| - 1)`a2, GetControlVertex(|vertices| - 1)`a3
      ensures AllSegments(sqrt, ps)
    {
      var n := |vertices|;
      var last, first := vertices[n - 1], vertices[0];
      assert Succ(n - 1, n) == 0;
      NotBefore(vertices, n - 1);
      label before:
      last.InitHermiteClose(sqrt);
      assert SegmentInitialized(sqrt, ps, n - 1) by {
        SegmentFromCoefficients(sqrt, ps, n - 1, Chord2D(sqrt, last.p, first.p));
      }
      assert SegmentsBelow(sqrt, ps, n - 1) by {
        assert old@before(SegmentsBelow(sqrt, ps, n - 1));
      }
      SegmentsExtend(sqrt, ps, n - 1);
    }

    /** The prefix of initialised segments grows by one slot. */
    lemma SegmentsExtend(sqrt: real -> real, ps: seq<Vector3>, k: nat)
      requires 2 <= |ps| == |vertices| && ChordsNonZero(sqrt, ps) && k < |vertices|
      requires SegmentsBelow(sqrt, ps, k) && SegmentInitialized(sqrt, ps, k)
      ensures SegmentsBelow(sqrt, ps, k + 1)
    {
    }

    /** The positions ps lists are the spline's points. */
    lemma PointsAre(ps: seq<Vector3>)
      requires HasPositions(ps)
      ensures Points() == ps
    {
    }

    /** Once linked, the first vertex has parameter 0 and no parameter
     * exceeds the end of the wrap segment. */
    lemma KnotsWithinWrap(sqrt: real -> real, ps: seq<Vector3>)
      requires IsSqrt(sqrt) && 2 <= |vertices| && HasPositions(ps) && AllLinked(sqrt, ps)
      ensures vertices[0].t == 0.0
      ensures forall j :: 0 <= j < |vertices| ==> 0.0 <= vertices[j].t <= WrapEnd(sqrt, ps)
    {
      ParamBounds(sqrt, ps);
      assert LinkedAt(sqrt, ps, 0);
      forall j | 0 <= j < |vertices|
        ensures 0.0 <= vertices[j].t <= WrapEnd(sqrt, ps)
      {
        assert LinkedAt(sqrt, ps, j);
      }
    }

    /** A vertex whose coefficients were computed from its own and its
     * successor's fields over the span d of its segment holds the
     * coefficients the specification assigns to it. */
    lemma SegmentFromCoefficients(sqrt: real -> real, ps: seq<Vector3>, i: nat, d: real)
      requires 2 <= |vertices| == |ps| && i < |vertices| && ChordsNonZero(sqrt, ps)
      requires vertices[i].p == ps[i] && vertices[Succ(i, |vertices|)].p == ps[Succ(i, |vertices|)]
      requires VelocityInitialized(sqrt, ps, i) && VelocityInitialized(sqrt, ps, Succ(i, |vertices|))
      requires d == Span(sqrt, ps, i)
      requires
        var cv, nx := vertices[i], vertices[Succ(i, |vertices|)];
        && cv.a0 == cv.p && cv.a1 == cv.v
        && cv.a2 == HermiteSegment.CoeffA2(cv.p, cv.v, nx.p, nx.v, d)
        && cv.a3 == HermiteSegment.CoeffA3(cv.p, cv.v, nx.p, nx.v, d)
      ensures SegmentInitialized(sqrt, ps, i)
    {
    }

    /** Builds the closed spline: links and parameters, the wrap bound,
     * velocities, the parameter bounds, then segment coefficients. */
    method ConstructClose(sqrt: real -> real)
      requires Valid() && 2 <= |vertices|
      requires IsSqrt(sqrt) && NeighboursDiffer(Points())
      modifies this`closed, this`minT, this`maxT
      modifies vertices`t, vertices`prev, vertices`next, vertices`v
      modifies vertices`a0, vertices`a1, vertices`a2, vertices`a3
      ensures vertices == old(vertices) && Points() == old(Points())
      ensures Constructed(sqrt)
    {
      var n := |vertices|;
      ghost var ps := Points();
      assert HasPositions(ps);
      ChordsNonZeroWhenNeighboursDiffer(sqrt, ps);

      LinkAndClose(sqrt, ps);
      InitializeVelocities(sqrt, ps);
      KnotsWithinWrap(sqrt, ps);
      UpdateBounds();
      assert minT == 0.0 && maxT == WrapEnd(sqrt, ps);

      InitSegments(sqrt, ps);
      assert ConstructedFrom(sqrt, ps);
      PointsAre(ps);
    }

    // -------------------------------------------------------------------
    // Properties of a constructed spline
    // -------------------------------------------------------------------

    /** After construction the knots are the chord-length parameters of the
     * control points (whatever parameters the vertices were added with): the
     * first is 0, they never decrease, and all lie below max_t. */
    lemma KnotsAreParameters(sqrt: real -> real)
      requires Constructed(sqrt)
      ensures |Knots()| == |vertices|
      ensures forall i :: 0 <= i < |vertices| ==> Knots()[i] == Param(sqrt, Points(), i)
      ensures Knots()[0] == 0.0
      ensures NonDecreasing(Knots())
      ensures forall i :: 0 <= i < |vertices| ==> Knots()[i] < maxT
    {
      var ps, ts := Points(), Knots();
      forall i | 0 <= i < |vertices|
        ensures ts[i] == Param(sqrt, ps, i)
      {
        assert LinkedAt(sqrt, ps, i);
      }
      forall i, j | 0 <= i <= j < |ts|
        ensures ts[i] <= ts[j]
      {
        ParamMonotone(sqrt, ps, i, j);
      }
      ParamIncreasing(sqrt, ps);
      forall i | 0 <= i < |ts|
        ensures ts[i] < maxT
      {
        ParamMonotone(sqrt, ps, i, |ts| - 1);
      }
    }

    /** The constructed spline passes through every control point: at the
     * knot of vertex i the position is that vertex's point, the velocity its
     * centred-difference velocity and the acceleration twice the quadratic
     * coefficient of its segment. */
    lemma InterpolatesAtKnots(sqrt: real -> real, i: nat)
      requires Constructed(sqrt) && i < |vertices|
      ensures CurvePosition(vertices[i].t) == Points()[i]
      ensures CurveVelocity(vertices[i].t) == VelocityAt(sqrt, Points(), i)
      ensures CurveAcceleration(vertices[i].t) == Scale(SegmentA2(sqrt, Points(), i), 2.0)
    {
      var ps, ts, n := Points(), Knots(), |vertices|;
      assert Segment(ts[i]) == Some(i) by {
        KnotsAreParameters(sqrt);
        if i < n - 1 {
          ParamIncreasing(sqrt, ps);
          assert InSegment(ts, i, ts[i]);
          SelectFindsSegment(ts, closed, maxT, i, ts[i]);
        } else {
          SelectFindsWrap(ts, maxT, ts[i]);
        }
      }
      assert SegmentInitialized(sqrt, ps, i);
    }

    /** Outside [0, max_t) the constructed spline evaluates to zero. */
    lemma ZeroOutsideDomain(sqrt: real -> real, u: real)
      requires Constructed(sqrt) && (u < 0.0 || u >= maxT)
      ensures CurvePosition(u) == Zero && CurveVelocity(u) == Zero && CurveAcceleration(u) == Zero
    {
      var ps, ts := Points(), Knots();
      KnotsAreParameters(sqrt);
      ParamBounds(sqrt, ps);
      SelectOutside(ts, closed, maxT, u);
    }

    /** Neighbouring segments join with matching position and velocity: the
     * segment of vertex i, evaluated where it ends (the next knot, or max_t
     * for the wrap segment), reaches the next vertex's point and velocity. */
    lemma SegmentsJoin(sqrt: real -> real, i: nat)
      requires Constructed(sqrt) && i < |vertices|
      ensures
        var n := |vertices|;
        var nx := vertices[Succ(i, n)];
        var end := if i < n - 1 then nx.t else maxT;
        vertices[i].Hermite(end) == nx.p && vertices[i].DHermite(end) == nx.v
    {
      var ps, n := Points(), |vertices|;
      var k := Succ(i, n);
      var cv, nx := vertices[i], vertices[k];
      var end := if i < n - 1 then nx.t else maxT;
      assert LinkedAt(sqrt, ps, i) && LinkedAt(sqrt, ps, k);
      assert SegmentInitialized(sqrt, ps, i);
      assert VelocityInitialized(sqrt, ps, k);
      assert end - cv.t == Span(sqrt, ps, i);
      HermiteSegment.EndConditions(ps[i], VelocityAt(sqrt, ps, i), ps[k], VelocityAt(sqrt, ps, k), Span(sqrt, ps, i));
    }
  }

  // ---------------------------------------------------------------------
  // Lemmas about the specification
  // ---------------------------------------------------------------------

  lemma SumSquaresPositive(dx: real, dy: real)
    requires dx != 0.0 || dy != 0.0
    ensures SumSquares(dx, dy) > 0.0
  {
    calc {
      SumSquares(dx, dy);
      dx * dx + dy * dy;
    >
      0.0;
    }
  }

  lemma SumSquaresNonNegative(dx: real, dy: real)
    ensures SumSquares(dx, dy) >= 0.0
  {
  }

  /** The square root of a positive number is positive. */
  lemma RootPositive(sqrt: real -> real, x: real)
    requires 0.0 < x && RootOf(sqrt, x)
    ensures 0.0 < sqrt(x)
  {
    assert sqrt(x) * sqrt(x) != 0.0;
  }

  /** A planar offset that is not zero has a positive length. */
  lemma NormPositive(sqrt: real -> real, dx: real, dy: real)
    requires IsSqrt(sqrt) && (dx != 0.0 || dy != 0.0)
    ensures Norm2D(sqrt, dx, dy) > 0.0
  {
    SumSquaresPositive(dx, dy);
    RootPositive(sqrt, SumSquares(dx, dy));
  }

  /** Planar lengths are never negative. */
  lemma NormNonNegative(sqrt: real -> real, dx: real, dy: real)
    requires IsSqrt(sqrt)
    ensures Norm2D(sqrt, dx, dy) >= 0.0
  {
    SumSquaresNonNegative(dx, dy);
    assert RootOf(sqrt, SumSquares(dx, dy));
  }

  /** Chord lengths are never negative. */
  lemma ChordNonNegative(sqrt: real -> real, a: Vector3, b: Vector3)
    requires IsSqrt(sqrt)
    ensures Chord2D(sqrt, a, b) >= 0.0
  {
    NormNonNegative(sqrt, b.x - a.x, b.y - a.y);
  }

  /** Negating an offset does not change its squared length. */
  lemma SumSquaresNegated(dx: real, dy: real)
    ensures SumSquares(-dx, -dy) == SumSquares(dx, dy)
  {
  }

  /** The chord length does not depend on the direction of travel. */
  lemma ChordSymmetric(sqrt: real -> real, a: Vector3, b: Vector3)
    ensures Chord2D(sqrt, a, b) == Chord2D(sqrt, b, a)
  {
    SumSquaresNegated(b.x - a.x, b.y - a.y);
  }

  /** Neighbours that differ in x or y give non-zero chords. */
  lemma ChordsNonZeroWhenNeighboursDiffer(sqrt: real -> real, ps: seq<Vector3>)
    requires IsSqrt(sqrt) && NeighboursDiffer(ps)
    ensures ChordsNonZero(sqrt, ps)
  {
    forall i | 0 <= i < |ps|
      ensures Chord2D(sqrt, ps[i], ps[Succ(i, |ps|)]) != 0.0
    {
      var b := ps[Succ(i, |ps|)];
      NormPositive(sqrt, b.x - ps[i].x, b.y - ps[i].y);
    }
  }

  /** Parameters never decrease along the vertex sequence. */
  lemma {:induction false} ParamMonotone(sqrt: real -> real, ps: seq<Vector3>, i: nat, j: nat)
    requires IsSqrt(sqrt) && i <= j < |ps|
    ensures Param(sqrt, ps, i) <= Param(sqrt, ps, j)
    decreases j
  {
    if i < j {
      ParamMonotone(sqrt, ps, i, j - 1);
      ChordNonNegative(sqrt, ps[j - 1], ps[j]);
    }
  }

  /** Every parameter lies between 0 (the first vertex's) and the end of the
   * wrap segment. */
  lemma ParamBounds(sqrt: real -> real, ps: seq<Vector3>)
    requires IsSqrt(sqrt) && 1 <= |ps|
    ensures Param(sqrt, ps, 0) == 0.0
    ensures forall j :: 0 <= j < |ps| ==> 0.0 <= Param(sqrt, ps, j) <= WrapEnd(sqrt, ps)
  {
    forall j | 0 <= j < |ps|
      ensures 0.0 <= Param(sqrt, ps, j) <= WrapEnd(sqrt, ps)
    {
      ParamMonotone(sqrt, ps, 0, j);
      ParamMonotone(sqrt, ps, j, |ps| - 1);
      ChordNonNegative(sqrt, ps[|ps| - 1], ps[0]);
    }
  }

  /** With non-zero chords the parameters increase strictly, and the wrap
   * segment ends strictly after the last vertex. */
  lemma ParamIncreasing(sqrt: real -> real, ps: seq<Vector3>)
    requires IsSqrt(sqrt) && 1 <= |ps| && ChordsNonZero(sqrt, ps)
    ensures forall i :: 0 <= i < |ps| - 1 ==> Param(sqrt, ps, i) < Param(sqrt, ps, i + 1)
    ensures Param(sqrt, ps, |ps| - 1) < WrapEnd(sqrt, ps)
  {
    forall i | 0 <= i < |ps| - 1
      ensures Param(sqrt, ps, i) < Param(sqrt, ps, i + 1)
    {
      assert Succ(i, |ps|) == i + 1;
      ChordNonNegative(sqrt, ps[i], ps[i + 1]);
    }
    assert Succ(|ps| - 1, |ps|) == 0;
    ChordNonNegative(sqrt, ps[|ps| - 1], ps[0]);
  }

  /** Two-vertex loop: each vertex is both neighbours of the other, so the
   * forward and backward quotients cancel and both velocities are zero. */
  lemma TwoVertexVelocitiesZero(sqrt: real -> real, ps: seq<Vector3>)
    requires |ps| == 2 && ChordsNonZero(sqrt, ps)
    ensures VelocityAt(sqrt, ps, 0) == Zero && VelocityAt(sqrt, ps, 1) == Zero
  {
    ChordSymmetric(sqrt, ps[0], ps[1]);
  }

  /** With non-decreasing knots, a u inside [ts[i], ts[i+1]) selects segment i. */
  lemma SelectFindsSegment(ts: seq<real>, closed: bool, maxT: real, i: nat, u: real)
    requires NonDecreasing(ts) && i + 1 < |ts| && InSegment(ts, i, u)
    ensures Select(ts, closed, maxT, u) == Some(i)
  {
  }

  /** On a closed spline with non-decreasing knots, a u in [ts[last], maxT)
   * selects the wrap segment. */
  lemma SelectFindsWrap(ts: seq<real>, maxT: real, u: real)
    requires NonDecreasing(ts) && 1 <= |ts| && ts[|ts| - 1] <= u < maxT
    ensures Select(ts, true, maxT, u) == Some(|ts| - 1)
  {
  }

  /** With non-decreasing knots bounded by maxT, a u before the first knot or
   * at or beyond maxT selects nothing. */
  lemma SelectOutside(ts: seq<real>, closed: bool, maxT: real, u: real)
    requires NonDecreasing(ts) && 1 <= |ts| && ts[|ts| - 1] <= maxT
    requires u < ts[0] || u >= maxT
    ensures Select(ts, closed, maxT, u) == None
  {
  }
}

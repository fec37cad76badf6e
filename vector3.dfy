/** Three-component vectors of reals.
 *
 * `Vector3` is the value type used everywhere in the spline; the functions
 * below are its componentwise arithmetic.  The source's compound operators
 * (`+=`, `-=`, `*=`, `/=`) change a vector variable in place: they are the
 * methods of class `Vector3Var`.  The free operators (`+`, `-`, `*`, `/`) copy
 * their vector operand into a fresh variable and apply a compound operator to
 * the copy; they are the methods `Plus`, `Minus`, ... at the end.
 */
module Vectors {

  datatype Vector3 = Vector3(x: real, y: real, z: real)

  /** The value of a default-constructed vector. */
  const Zero: Vector3 := Vector3(0.0, 0.0, 0.0)

  function Add(a: Vector3, b: Vector3): Vector3 {
    Vector3(a.x + b.x, a.y + b.y, a.z + b.z)
  }

  function Sub(a: Vector3, b: Vector3): Vector3 {
    Vector3(a.x - b.x, a.y - b.y, a.z - b.z)
  }

  /** Componentwise (Hadamard) product. */
  function Hadamard(a: Vector3, b: Vector3): Vector3 {
    Vector3(a.x * b.x, a.y * b.y, a.z * b.z)
  }

  /** Adds the same scalar to every component. */
  function AddScalar(a: Vector3, s: real): Vector3 {
    Vector3(a.x + s, a.y + s, a.z + s)
  }

  /** Multiplies every component by a scalar. */
  function Scale(a: Vector3, s: real): Vector3 {
    Vector3(a.x * s, a.y * s, a.z * s)
  }

  /** Divides every component by a non-zero scalar. */
  function Div(a: Vector3, s: real): Vector3
    requires s != 0.0
  {
    Vector3(a.x / s, a.y / s, a.z / s)
  }

  /** A variable of type Vector3: the target of the compound operators. */
  class Vector3Var {
    var x: real
    var y: real
    var z: real

    function Value(): Vector3
      reads this
    {
      Vector3(x, y, z)
    }

    /** The default constructor yields the zero vector. */
    constructor ()
      ensures x == 0.0 && y == 0.0 && z == 0.0
    {
      x, y, z := 0.0, 0.0, 0.0;
    }

    constructor FromComponents(x: real, y: real, z: real)
      ensures Value() == Vector3(x, y, z)
    {
      this.x, this.y, this.z := x, y, z;
    }

    /** Copy construction. */
    constructor Copy(v: Vector3)
      ensures Value() == v
    {
      x, y, z := v.x, v.y, v.z;
    }

    /** `+=` with a vector: each component grows by the matching one of rhs. */
    method AddAssign(rhs: Vector3) returns (r: Vector3)
      modifies this
      ensures x == old(x) + rhs.x && y == old(y) + rhs.y && z == old(z) + rhs.z
      ensures r == Value()
    {
      x := x + rhs.x;
      y := y + rhs.y;
      z := z + rhs.z;
      r := Value();
    }

    /** `-=` with a vector. */
    method SubAssign(rhs: Vector3) returns (r: Vector3)
      modifies this
      ensures x == old(x) - rhs.x && y == old(y) - rhs.y && z == old(z) - rhs.z
      ensures r == Value()
    {
      x := x - rhs.x;
      y := y - rhs.y;
      z := z - rhs.z;
      r := Value();
    }

    /** `*=` with a vector: componentwise product. */
    method MulAssign(rhs: Vector3) returns (r: Vector3)
      modifies this
      ensures x == old(x) * rhs.x && y == old(y) * rhs.y && z == old(z) * rhs.z
      ensures r == Value()
    {
      x := x * rhs.x;
      y := y * rhs.y;
      z := z * rhs.z;
      r := Value();
    }

    /** `+=` with a scalar: the scalar is added to every component. */
    method AddScalarAssign(rhs: real) returns (r: Vector3)
      modifies this
      ensures x == old(x) + rhs && y == old(y) + rhs && z == old(z) + rhs
      ensures Value() == AddScalar(old(Value()), rhs)
      ensures r == Value()
    {
      x := x + rhs;
      y := y + rhs;
      z := z + rhs;
      r := Value();
    }

    /** `/=` with a scalar. */
    method DivAssign(rhs: real) returns (r: Vector3)
      requires rhs != 0.0
      modifies this
      ensures x == old(x) / rhs && y == old(y) / rhs && z == old(z) / rhs
      ensures r == Value()
    {
      x := x / rhs;
      y := y / rhs;
      z := z / rhs;
      r := Value();
    }

    /** `*=` with a scalar. */
    method MulScalarAssign(rhs: real) returns (r: Vector3)
      modifies this
      ensures x == old(x) * rhs && y == old(y) * rhs && z == old(z) * rhs
      ensures r == Value()
    {
      x := x * rhs;
      y := y * rhs;
      z := z * rhs;
      r := Value();
    }
  }

  /** `lhs + rhs`: the componentwise sum, computed on a copy of lhs. */
  method Plus(lhs: Vector3, rhs: Vector3) returns (r: Vector3)
    ensures r.x == lhs.x + rhs.x && r.y == lhs.y + rhs.y && r.z == lhs.z + rhs.z
    ensures r == Add(lhs, rhs)
  {
    var res := new Vector3Var.Copy(lhs);
    r := res.AddAssign(rhs);
  }

  /** `lhs - rhs`: the componentwise difference, computed on a copy of lhs. */
  method Minus(lhs: Vector3, rhs: Vector3) returns (r: Vector3)
    ensures r.x == lhs.x - rhs.x && r.y == lhs.y - rhs.y && r.z == lhs.z - rhs.z
    ensures r == Sub(lhs, rhs)
  {
    var res := new Vector3Var.Copy(lhs);
    r := res.SubAssign(rhs);
  }

  /** `lhs * rhs` for a vector and a scalar. */
  method TimesScalar(lhs: Vector3, rhs: real) returns (r: Vector3)
    ensures r.x == lhs.x * rhs && r.y == lhs.y * rhs && r.z == lhs.z * rhs
    ensures r == Scale(lhs, rhs)
  {
    var res := new Vector3Var.Copy(lhs);
    r := res.MulScalarAssign(rhs);
  }

  /** `lhs * rhs` for a scalar and a vector: the copy is of the vector. */
  method ScalarTimes(lhs: real, rhs: Vector3) returns (r: Vector3)
    ensures r.x == lhs * rhs.x && r.y == lhs * rhs.y && r.z == lhs * rhs.z
    ensures r == Scale(rhs, lhs)
  {
    var res := new Vector3Var.Copy(rhs);
    r := res.MulScalarAssign(lhs);
  }

  /** `lhs * rhs` for two vectors: a Hadamard product, not a dot product. */
  method TimesVector(lhs: Vector3, rhs: Vector3) returns (r: Vector3)
    ensures r.x == lhs.x * rhs.x && r.y == lhs.y * rhs.y && r.z == lhs.z * rhs.z
    ensures r == Hadamard(lhs, rhs)
  {
    var res := new Vector3Var.Copy(lhs);
    r := res.MulAssign(rhs);
  }

  /** `lhs / rhs` for a vector and a non-zero scalar. */
  method DividedBy(lhs: Vector3, rhs: real) returns (r: Vector3)
    requires rhs != 0.0
    ensures r.x == lhs.x / rhs && r.y == lhs.y / rhs && r.z == lhs.z / rhs
    ensures r == Div(lhs, rhs)
  {
    var res := new Vector3Var.Copy(lhs);
    r := res.DivAssign(rhs);
  }

  /** Subtraction undoes addition. */
  lemma SubUndoesAdd(a: Vector3, b: Vector3)
    ensures Sub(Add(a, b), b) == a
  {
  }

  /** Division by a non-zero scalar undoes scaling by it. */
  lemma DivUndoesScale(a: Vector3, s: real)
    requires s != 0.0
    ensures Div(Scale(a, s), s) == a
  {
  }
}

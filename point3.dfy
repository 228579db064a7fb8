/**
 * The operator layer of src/geometry/point3.rs over the shared Point3. Addition of a
 * point or a vector, scaling, indexing and the default coincide with point.rs and are
 * taken from module Point; this file differs in `point - vector`, which yields a point.
 */
module Point3Ops {
  import Vector
  import P = Point

  /** `From<Vector3>`. */
  function FromVector(v: Vector.Vec3): (p: P.Point3)
    ensures P.AsVector(p) == v
  {
    P.Point3(v.x, v.y, v.z)
  }

  /** `point - vector`, a point here. */
  function SubVec(p: P.Point3, v: Vector.Vec3): (r: P.Point3)
    ensures P.AddVec(r, v) == p
  {
    P.Point3(p.x - v.x, p.y - v.y, p.z - v.z)
  }

  /** `vector - point`, a vector. */
  function VecSub(v: Vector.Vec3, p: P.Point3): (r: Vector.Vec3)
    ensures P.AddVec(p, r) == FromVector(v)
  {
    Vector.Vec3(v.x - p.x, v.y - p.y, v.z - p.z)
  }

  /** `point / s` multiplies by the reciprocal `1 / s`. */
  function Div(p: P.Point3, s: real): (r: P.Point3)
    requires s != 0.0
    ensures P.Scale(r, s) == p
  {
    var inv := 1.0 / s;
    P.Point3(p.x * inv, p.y * inv, p.z * inv)
  }

  function Neg(p: P.Point3): (r: P.Point3)
    ensures P.Add(p, r) == P.Default()
  {
    P.Point3(-p.x, -p.y, -p.z)
  }

  /** PartialEq::eq compares the three coordinates pairwise. */
  function Eq(a: P.Point3, b: P.Point3): (r: bool)
    ensures r <==> a == b
  {
    a.x == b.x && a.y == b.y && a.z == b.z
  }

  /** PartialEq::ne. */
  function Ne(a: P.Point3, b: P.Point3): (r: bool)
    ensures r <==> !Eq(a, b)
  {
    a.x != b.x || a.y != b.y || a.z != b.z
  }

  /** A Point3 variable updated in place by the compound assignment operators. */
  class Point3Var {
    var x: real
    var y: real
    var z: real

    function Value(): P.Point3
      reads this
    {
      P.Point3(x, y, z)
    }

    constructor (p: P.Point3)
      ensures Value() == p
    {
      x, y, z := p.x, p.y, p.z;
    }

    /** `p += v`. */
    method AddAssignVec(v: Vector.Vec3)
      modifies this
      ensures Value() == P.AddVec(old(Value()), v)
    {
      x := x + v.x;
      y := y + v.y;
      z := z + v.z;
    }

    /** `p -= v`. */
    method SubAssignVec(v: Vector.Vec3)
      modifies this
      ensures Value() == SubVec(old(Value()), v)
    {
      x := x - v.x;
      y := y - v.y;
      z := z - v.z;
    }

    /** `p += q`. */
    method AddAssignPoint(q: P.Point3)
      modifies this
      ensures Value() == P.Add(old(Value()), q)
    {
      x := x + q.x;
      y := y + q.y;
      z := z + q.z;
    }

    method MulAssign(s: real)
      modifies this
      ensures Value() == P.Scale(old(Value()), s)
    {
      x := x * s;
      y := y * s;
      z := z * s;
    }

    method DivAssign(s: real)
      requires s != 0.0
      modifies this
      ensures Value() == Div(old(Value()), s)
    {
      var inv := 1.0 / s;
      x := x * inv;
      y := y * inv;
      z := z * inv;
    }
  }

  // Properties

  lemma AddThenSubVec(p: P.Point3, v: Vector.Vec3)
    ensures SubVec(P.AddVec(p, v), v) == p
    ensures P.AddVec(SubVec(p, v), v) == p
  {
  }

  lemma ConversionRoundTrip(p: P.Point3, v: Vector.Vec3)
    ensures FromVector(P.AsVector(p)) == p
    ensures P.AsVector(FromVector(v)) == v
  {
  }

  lemma NegIsInvolution(p: P.Point3)
    ensures Neg(Neg(p)) == p
  {
  }
}

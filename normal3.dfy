/**
 * The surface normal of src/geometry/normal3.rs. Its `eq` compares `self.x` with
 * `other.y` in the second position, while its `ne` is the componentwise test.
 */
module Normal3 {
  import Vector

  datatype Normal3 = Normal3(x: real, y: real, z: real)

  function AsVector(n: Normal3): Vector.Vec3 { Vector.Vec3(n.x, n.y, n.z) }

  function LengthSquared(n: Normal3): (r: real)
    ensures r == Vector.LengthSquared(AsVector(n))
    ensures r >= 0.0
  {
    n.x * n.x + n.y * n.y + n.z * n.z
  }

  /** `face_forward(v)`: the normal flipped, if needed, into the hemisphere of `v`. */
  function FaceForward(n: Normal3, v: Vector.Vec3): (r: Normal3)
    ensures Vector.Dot(v, AsVector(r)) >= 0.0
    ensures r == n || r == Neg(n)
    ensures Vector.Dot(v, AsVector(n)) >= 0.0 ==> r == n
  {
    if Vector.Dot(v, AsVector(n)) < 0.0 then
      assert Vector.Dot(v, AsVector(Neg(n))) == -Vector.Dot(v, AsVector(n));
      Neg(n)
    else n
  }

  function Neg(n: Normal3): Normal3 { Normal3(-n.x, -n.y, -n.z) }

  function Add(a: Normal3, b: Normal3): Normal3 { Normal3(a.x + b.x, a.y + b.y, a.z + b.z) }

  function Sub(a: Normal3, b: Normal3): (r: Normal3)
    ensures Add(r, b) == a
  {
    Normal3(a.x - b.x, a.y - b.y, a.z - b.z)
  }

  function Scale(n: Normal3, s: real): Normal3 { Normal3(n.x * s, n.y * s, n.z * s) }

  /** `n / s` multiplies by the reciprocal `1 / s`. */
  function Div(n: Normal3, s: real): (r: Normal3)
    requires s != 0.0
    ensures Scale(r, s) == n
  {
    var inv := 1.0 / s;
    Normal3(n.x * inv, n.y * inv, n.z * inv)
  }

  /** PartialEq::eq as written: the middle test is `self.x == other.y`. */
  function Eq(a: Normal3, b: Normal3): bool
  {
    a.x == b.x && a.x == b.y && a.z == b.z
  }

  /** PartialEq::ne, componentwise. */
  function Ne(a: Normal3, b: Normal3): (r: bool)
    ensures r <==> a != b
  {
    a.x != b.x || a.y != b.y || a.z != b.z
  }

  /** A Normal3 variable updated in place by the compound assignment operators. */
  class Normal3Var {
    var x: real
    var y: real
    var z: real

    function Value(): Normal3
      reads this
    {
      Normal3(x, y, z)
    }

    constructor (n: Normal3)
      ensures Value() == n
    {
      x, y, z := n.x, n.y, n.z;
    }

    method AddAssign(rhs: Normal3)
      modifies this
      ensures Value() == Add(old(Value()), rhs)
    {
      x := x + rhs.x;
      y := y + rhs.y;
      z := z + rhs.z;
    }

    method SubAssign(rhs: Normal3)
      modifies this
      ensures Value() == Sub(old(Value()), rhs)
    {
      x := x - rhs.x;
      y := y - rhs.y;
      z := z - rhs.z;
    }

    method MulAssign(s: real)
      modifies this
      ensures Value() == Scale(old(Value()), s)
    {
      x := x * s;
      y := y * s;
      z := z * s;
    }

    /** `/=` multiplies by `1 / s`. */
    method DivAssign(s: real)
      requires s != 0.0
      modifies this
      ensures Value() == Div(old(Value()), s)
    {
      var inv := 1.0 / s;
      x := x * inv;
      y := y * inv;
      z := z * inv;
    }
  }

  // Properties

  lemma NegIsInvolution(n: Normal3)
    ensures Neg(Neg(n)) == n
    ensures Add(n, Neg(n)) == Normal3(0.0, 0.0, 0.0)
  {
  }

  /** `eq` of a normal with itself holds exactly when its x and y agree. */
  lemma EqReflexiveOnlyWhenXEqualsY(n: Normal3)
    ensures Eq(n, n) <==> n.x == n.y
  {
  }

  /** For (0, 1, 0) against itself neither `eq` nor `ne` holds. */
  lemma EqAndNeBothFalse()
    ensures !Eq(Normal3(0.0, 1.0, 0.0), Normal3(0.0, 1.0, 0.0))
    ensures !Ne(Normal3(0.0, 1.0, 0.0), Normal3(0.0, 1.0, 0.0))
  {
  }
}

/**
 * The two-component vector of src/geometry/vector2.rs. Its `eq` compares `x` with the
 * other vector's `x` and, in the second position, `x` again with the other's `y`; `ne`
 * is the exact negation of that test.
 */
module Vector2 {
  import Vector
  import P = Point

  datatype Vec2 = Vec2(x: real, y: real)

  function LengthSquared(v: Vec2): (r: real)
    ensures r >= 0.0
    ensures r >= v.x * v.x && r >= v.y * v.y
  {
    Vector.SquarePositive(v.x);
    Vector.SquarePositive(v.y);
    v.x * v.x + v.y * v.y
  }

  /** `From<Point2>`. */
  function FromPoint2(p: P.Point2): (r: Vec2)
    ensures r.x == p.x && r.y == p.y
  {
    Vec2(p.x, p.y)
  }

  /** `From<Point3>` drops z. */
  function FromPoint3(p: P.Point3): (r: Vec2)
    ensures r == FromPoint2(P.Point2FromPoint3(p))
  {
    Vec2(p.x, p.y)
  }

  function Add(a: Vec2, b: Vec2): Vec2 { Vec2(a.x + b.x, a.y + b.y) }

  function Sub(a: Vec2, b: Vec2): (r: Vec2)
    ensures Add(r, b) == a
  {
    Vec2(a.x - b.x, a.y - b.y)
  }

  function Scale(v: Vec2, s: real): Vec2 { Vec2(v.x * s, v.y * s) }

  function Div(v: Vec2, s: real): (r: Vec2)
    requires s != 0.0
    ensures Scale(r, s) == v
  {
    Vec2(v.x / s, v.y / s)
  }

  function Neg(v: Vec2): (r: Vec2)
    ensures Add(v, r) == Default()
  {
    Vec2(-v.x, -v.y)
  }

  function Default(): Vec2 { Vec2(0.0, 0.0) }

  /** PartialEq::eq as written: both tests read `self.x`. */
  function Eq(a: Vec2, b: Vec2): bool
  {
    a.x == b.x && a.x == b.y
  }

  /** PartialEq::ne as written. */
  function Ne(a: Vec2, b: Vec2): (r: bool)
    ensures r <==> !Eq(a, b)
  {
    a.x != b.x || a.x != b.y
  }

  /** A Vector2 variable updated in place by the compound assignment operators. */
  class Vec2Var {
    var x: real
    var y: real

    function Value(): Vec2
      reads this
    {
      Vec2(x, y)
    }

    constructor (v: Vec2)
      ensures Value() == v
    {
      x, y := v.x, v.y;
    }

    method AddAssign(rhs: Vec2)
      modifies this
      ensures Value() == Add(old(Value()), rhs)
    {
      x := x + rhs.x;
      y := y + rhs.y;
    }

    method SubAssign(rhs: Vec2)
      modifies this
      ensures Value() == Sub(old(Value()), rhs)
    {
      x := x - rhs.x;
      y := y - rhs.y;
    }

    /** `*=` scales y first, then x. */
    method MulAssign(s: real)
      modifies this
      ensures Value() == Scale(old(Value()), s)
    {
      y := y * s;
      x := x * s;
    }

    method DivAssign(s: real)
      requires s != 0.0
      modifies this
      ensures Value() == Div(old(Value()), s)
    {
      y := y / s;
      x := x / s;
    }
  }

  // Properties

  /** `eq` holds between a vector and itself exactly when its two components agree. */
  lemma EqReflexiveOnlyOnDiagonal(v: Vec2)
    ensures Eq(v, v) <==> v.x == v.y
  {
  }

  /** `eq` ignores the first argument's y and can hold between different vectors. */
  lemma EqIgnoresOwnY()
    ensures !Eq(Vec2(0.0, 1.0), Vec2(0.0, 1.0))
    ensures Eq(Vec2(1.0, 5.0), Vec2(1.0, 1.0))
  {
  }

  lemma SubAddRoundTrip(a: Vec2, b: Vec2)
    ensures Sub(Add(a, b), b) == a
    ensures Neg(Neg(a)) == a
  {
  }
}

/**
 * The operator layer of src/geometry/point2.rs over the shared Point2. Its `eq` is the
 * componentwise test, but its `ne` compares `x` with the other point's `x` and then `x`
 * with the other point's `y`.
 */
module Point2Ops {
  import V2 = Vector2
  import P = Point

  /** `From<Vector2>`. */
  function FromVector(v: V2.Vec2): (p: P.Point2)
    ensures V2.FromPoint2(p) == v
  {
    P.Point2(v.x, v.y)
  }

  /** `point + vector`. */
  function AddVec(p: P.Point2, v: V2.Vec2): P.Point2 { P.Point2(p.x + v.x, p.y + v.y) }

  /** `point + point`. */
  function AddPoint(p: P.Point2, q: P.Point2): P.Point2 { P.Point2(p.x + q.x, p.y + q.y) }

  /** `vector - point`, a vector. */
  function VecSub(v: V2.Vec2, p: P.Point2): (r: V2.Vec2)
    ensures AddVec(p, r) == FromVector(v)
  {
    V2.Vec2(v.x - p.x, v.y - p.y)
  }

  /** `point - point`, the vector from `q` to `p`. */
  function Sub(p: P.Point2, q: P.Point2): (r: V2.Vec2)
    ensures AddVec(q, r) == p
  {
    V2.Vec2(p.x - q.x, p.y - q.y)
  }

  /** `point - vector`, a point. */
  function SubVec(p: P.Point2, v: V2.Vec2): (r: P.Point2)
    ensures AddVec(r, v) == p
  {
    P.Point2(p.x - v.x, p.y - v.y)
  }

  function Neg(p: P.Point2): (r: P.Point2)
    ensures AddPoint(p, r) == Default()
  {
    P.Point2(-p.x, -p.y)
  }

  function Scale(p: P.Point2, s: real): P.Point2 { P.Point2(p.x * s, p.y * s) }

  /** `point / s` multiplies by the reciprocal `1 / s`. */
  function Div(p: P.Point2, s: real): (r: P.Point2)
    requires s != 0.0
    ensures Scale(r, s) == p
  {
    var inv := 1.0 / s;
    P.Point2(p.x * inv, p.y * inv)
  }

  function Default(): P.Point2 { P.Point2(0.0, 0.0) }

  /** PartialEq::eq, componentwise. */
  function Eq(a: P.Point2, b: P.Point2): (r: bool)
    ensures r <==> a == b
  {
    a.x == b.x && a.y == b.y
  }

  /** PartialEq::ne as written: the second test reads `self.x`, not `self.y`. */
  function Ne(a: P.Point2, b: P.Point2): bool
  {
    a.x != b.x || a.x != b.y
  }

  /** A Point2 variable updated in place by the compound assignment operators. */
  class Point2Var {
    var x: real
    var y: real

    function Value(): P.Point2
      reads this
    {
      P.Point2(x, y)
    }

    constructor (p: P.Point2)
      ensures Value() == p
    {
      x, y := p.x, p.y;
    }

    /** `p += v`. */
    method AddAssignVec(v: V2.Vec2)
      modifies this
      ensures Value() == AddVec(old(Value()), v)
    {
      x := x + v.x;
      y := y + v.y;
    }

    /** `p -= v`. */
    method SubAssignVec(v: V2.Vec2)
      modifies this
      ensures Value() == SubVec(old(Value()), v)
    {
      x := x - v.x;
      y := y - v.y;
    }

    /** `p += q`. */
    method AddAssignPoint(q: P.Point2)
      modifies this
      ensures Value() == AddPoint(old(Value()), q)
    {
      x := x + q.x;
      y := y + q.y;
    }

    method MulAssign(s: real)
      modifies this
      ensures Value() == Scale(old(Value()), s)
    {
      x := x * s;
      y := y * s;
    }

    /** `/=` multiplies both fields by `1 / s`. */
    method DivAssign(s: real)
      requires s != 0.0
      modifies this
      ensures Value() == Div(old(Value()), s)
    {
      var inv := 1.0 / s;
      x := x * inv;
      y := y * inv;
    }
  }

  // Properties

  lemma AddThenSubVec(p: P.Point2, v: V2.Vec2)
    ensures SubVec(AddVec(p, v), v) == p
    ensures Sub(AddVec(p, v), p) == v
  {
  }

  /** `ne` of a point with itself holds exactly when its coordinates differ, while `eq` always holds. */
  lemma NeOfSelf(p: P.Point2)
    ensures Eq(p, p)
    ensures Ne(p, p) <==> p.x != p.y
  {
  }

  /** So `eq` and `ne` can both be true, and both false, for the same pair. */
  lemma EqAndNeDisagree()
    ensures Eq(P.Point2(0.0, 1.0), P.Point2(0.0, 1.0)) && Ne(P.Point2(0.0, 1.0), P.Point2(0.0, 1.0))
    ensures !Eq(P.Point2(1.0, 5.0), P.Point2(1.0, 1.0)) && !Ne(P.Point2(1.0, 5.0), P.Point2(1.0, 1.0))
  {
  }
}

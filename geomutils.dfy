/**
 * The vector and point helpers of src/geometry/utils.rs that need no trigonometry or
 * square root. The generator draws of `random_vector` and `random_vector_ranged` are
 * passed in as the three values `next_f32` returned.
 */
module GeomUtils {
  import opened Vector
  import P = Point

  /** `random_vector`: each draw `r` becomes `(r - 0.5) * 2`. */
  function RandomVector(ra: real, rb: real, rc: real): (v: Vec3)
    ensures 0.0 <= ra <= 1.0 ==> -1.0 <= v.x <= 1.0
    ensures 0.0 <= rb <= 1.0 ==> -1.0 <= v.y <= 1.0
    ensures 0.0 <= rc <= 1.0 ==> -1.0 <= v.z <= 1.0
  {
    Vec3((ra - 0.5) * 2.0, (rb - 0.5) * 2.0, (rc - 0.5) * 2.0)
  }

  /** One component of `random_vector_ranged`: `r * (max - min) + min`. */
  function Ranged(r: real, min: real, max: real): (c: real)
    ensures 0.0 <= r <= 1.0 && min <= max ==> min <= c <= max
  {
    var diff := max - min;
    assert 0.0 <= r <= 1.0 && min <= max ==> 0.0 <= r * diff <= diff by {
      if 0.0 <= r <= 1.0 && min <= max {
        assert r * diff <= 1.0 * diff;
      }
    }
    r * diff + min
  }

  function RandomVectorRanged(ra: real, rb: real, rc: real, min: real, max: real): (v: Vec3)
    ensures v == Vec3(Ranged(ra, min, max), Ranged(rb, min, max), Ranged(rc, min, max))
    ensures 0.0 <= ra <= 1.0 && 0.0 <= rb <= 1.0 && 0.0 <= rc <= 1.0 && min <= max ==>
      min <= v.x <= max && min <= v.y <= max && min <= v.z <= max
  {
    var diff := max - min;
    Vec3(ra * diff + min, rb * diff + min, rc * diff + min)
  }

  /** `reflect_vector(v, n) = v - (2 (v . n)) n`. */
  function Reflect(v: Vec3, n: Vec3): Vec3
  {
    Sub(v, Scale(n, 2.0 * Dot(v, n)))
  }

  /** `distance_squared`: the squared length of `p1 - p2`. */
  function DistanceSquared(p1: P.Point3, p2: P.Point3): (d: real)
    ensures d >= 0.0
  {
    LengthSquared(P.Sub(p1, p2))
  }

  /** `lerp(t, a, b) = (1 - t) a + t b`, on points. */
  function Lerp(t: real, a: P.Point3, b: P.Point3): P.Point3
  {
    P.Add(P.ScaleLeft(1.0 - t, a), P.ScaleLeft(t, b))
  }

  // Properties

  /** Reflection about a unit normal negates the normal component. */
  lemma {:induction false} ReflectNegatesNormalPart(v: Vec3, n: Vec3)
    requires Dot(n, n) == 1.0
    ensures Dot(Reflect(v, n), n) == -Dot(v, n)
  {
    var d := Dot(v, n);
    calc {
      Dot(Reflect(v, n), n);
      == Dot(v, n) - 2.0 * d * Dot(n, n);
      == d - 2.0 * d;
    }
  }

  /** Reflecting twice about a unit normal gives the vector back. */
  lemma {:induction false} ReflectIsInvolution(v: Vec3, n: Vec3)
    requires Dot(n, n) == 1.0
    ensures Reflect(Reflect(v, n), n) == v
  {
    ReflectNegatesNormalPart(v, n);
    var w := Reflect(v, n);
    var d := Dot(v, n);
    assert Dot(w, n) == -d;
    assert Reflect(w, n) == Sub(w, Scale(n, -2.0 * d));
  }

  lemma DistanceSquaredSymmetric(p: P.Point3, q: P.Point3)
    ensures DistanceSquared(p, q) == DistanceSquared(q, p)
    ensures DistanceSquared(p, p) == 0.0
  {
    var u, w := P.Sub(p, q), P.Sub(q, p);
    assert w == Neg(u);
    NegSquare(u.x);
    NegSquare(u.y);
    NegSquare(u.z);
  }

  lemma NegSquare(a: real)
    ensures (-a) * (-a) == a * a
  {
  }

  lemma LerpEndpoints(a: P.Point3, b: P.Point3)
    ensures Lerp(0.0, a, b) == a
    ensures Lerp(1.0, a, b) == b
  {
  }
}

/**
 * Triangles of src/objects/triangle.rs: construction from three vertices, the
 * Möller–Trumbore ray intersection writing a hit record, translation, the bounding
 * volume and uniform sampling of the surface.
 */
module Triangles {
  import opened Wrappers
  import opened Vector
  import P = Point
  import opened Materials
  import opened Rays
  import BV = BoundingVolumes

  datatype Triangle = Triangle(
    p0: Vec3, p1: Vec3, p2: Vec3,
    normal: Vec3,
    material: Option<Material>,
    center: P.Point3,
    edge10: Vec3, edge20: Vec3)

  /** The cached edges are the edges from the first vertex and the cached centre is the centroid. */
  predicate WellFormed(tri: Triangle)
  {
    tri.edge10 == Sub(tri.p1, tri.p0) && tri.edge20 == Sub(tri.p2, tri.p0) &&
    Scale(P.AsVector(tri.center), 3.0) == Add(Add(tri.p0, tri.p1), tri.p2)
  }

  /** `Triangle::new`: edges from `a`, unit normal of their cross product, centroid, no material. */
  function New(a: Vec3, b: Vec3, c: Vec3, sqrt: real -> real): (tri: Triangle)
    ensures tri.p0 == a && tri.p1 == b && tri.p2 == c
    ensures WellFormed(tri) && Add(a, tri.edge10) == b && Add(a, tri.edge20) == c
    ensures tri.material == None
    ensures Scale(P.AsVector(tri.center), 3.0) == Add(Add(a, b), c)
  {
    var sum := Add(Add(a, b), c);
    Triangle(a, b, c, Normalize(Cross(Sub(b, a), Sub(c, a)), sqrt), None,
      P.Point3(sum.x / 3.0, sum.y / 3.0, sum.z / 3.0), Sub(b, a), Sub(c, a))
  }

  /** The normal `Triangle::new` stores is orthogonal to both edges. */
  lemma NewNormalIsOrthogonal(a: Vec3, b: Vec3, c: Vec3, sqrt: real -> real)
    ensures var tri := New(a, b, c, sqrt);
      Dot(tri.normal, tri.edge10) == 0.0 && Dot(tri.normal, tri.edge20) == 0.0
  {
    var v0v1 := Sub(b, a);
    var v0v2 := Sub(c, a);
    var n := Cross(v0v1, v0v2);
    CrossIsOrthogonal(v0v1, v0v2);
    var l := sqrt(LengthSquared(n));
    assert l != 0.0 ==> Dot(Scale(n, 1.0 / l), v0v1) == (1.0 / l) * Dot(n, v0v1);
    assert l != 0.0 ==> Dot(Scale(n, 1.0 / l), v0v2) == (1.0 / l) * Dot(n, v0v2);
  }

  /** The parallel-ray threshold of `intersect_mt`. */
  const Epsilon: real := 0.0000000001

  function Abs(a: real): real { if a < 0.0 then -a else a }

  /** Barycentric coordinates of a hit and its ray parameter. */
  datatype Barycentric = Barycentric(u: real, v: real, t: real)

  /** The determinant `edge1 · (dir × edge2)` whose smallness marks a ray parallel to the plane. */
  function Determinant(tri: Triangle, ray: Ray): real
  {
    Dot(Sub(tri.p1, tri.p0), Cross(ray.direction, Sub(tri.p2, tri.p0)))
  }

  /**
   * The Möller–Trumbore solve, before the window check: None for a near-parallel ray or
   * a point outside the triangle, else the barycentrics and the parameter.
   */
  function Solve(tri: Triangle, ray: Ray): (r: Option<Barycentric>)
    ensures Abs(Determinant(tri, ray)) < Epsilon ==> r == None
    ensures r.Some? ==> 0.0 <= r.value.u && 0.0 <= r.value.v && r.value.u + r.value.v <= 1.0
  {
    var edge1 := Sub(tri.p1, tri.p0);
    var edge2 := Sub(tri.p2, tri.p0);
    var s := Sub(P.AsVector(ray.origin), tri.p0);
    var h := Cross(ray.direction, edge2);
    var q := Cross(s, edge1);
    var a := Dot(edge1, h);
    Accept(a, Reciprocal(a), Dot(s, h), Dot(ray.direction, q), Dot(edge2, q))
  }

  /**
   * The tests of `intersect_mt` on the determinant `a`, its reciprocal `f` and the three
   * products that `f` scales into u, v and t.
   */
  function Accept(a: real, f: real, sh: real, dq: real, eq: real): Option<Barycentric>
  {
    if Abs(a) < Epsilon then None
    else if f * sh < 0.0 || f * sh > 1.0 then None
    else if f * dq < 0.0 || f * sh + f * dq > 1.0 then None
    else Some(Barycentric(f * sh, f * dq, f * eq))
  }

  lemma Accepted(a: real, f: real, sh: real, dq: real, eq: real)
    requires !(Abs(a) < Epsilon)
    requires !(f * sh < 0.0 || f * sh > 1.0) && !(f * dq < 0.0 || f * sh + f * dq > 1.0)
    ensures Accept(a, f, sh, dq, eq) == Some(Barycentric(f * sh, f * dq, f * eq))
  {
  }

  /** The point with barycentric weights `u`, `v` on the edges from the first vertex. */
  function Interpolate(tri: Triangle, u: real, v: real): Vec3
  {
    Add(Add(tri.p0, Scale(Sub(tri.p1, tri.p0), u)), Scale(Sub(tri.p2, tri.p0), v))
  }

  /** The record `intersect_mt` leaves behind, or None when it returns false. */
  function Hit(tri: Triangle, ray: Ray, tMin: real, tMax: real): (r: Option<HitData>)
    ensures r.Some? ==> tMin <= r.value.t <= tMax && r.value.point == At(ray, r.value.t)
    ensures r.Some? ==> r.value.material == tri.material
    ensures r.Some? ==> (r.value.frontFace <==> Dot(ray.direction, tri.normal) < 0.0)
  {
    match Solve(tri, ray)
    case None => None
    case Some(b) =>
      if b.t < tMin || b.t > tMax then None
      else Some(WithFaceNormal(HitData(b.t, At(ray, b.t), Zero(), false, tri.material), ray, tri.normal))
  }

  /** The normal of a triangle's hit faces against the ray. */
  lemma HitFacesRay(tri: Triangle, ray: Ray, tMin: real, tMax: real)
    requires Hit(tri, ray, tMin, tMax).Some?
    ensures Dot(ray.direction, Hit(tri, ray, tMin, tMax).value.normal) <= 0.0
  {
    var b := Solve(tri, ray).value;
    FaceNormalFacesRay(HitData(b.t, At(ray, b.t), Zero(), false, tri.material), ray, tri.normal);
  }

  /** `intersect_mt` (and `intersect`, which delegates to it): writes the record only on a hit. */
  method IntersectMt(tri: Triangle, ray: Ray, tMin: real, tMax: real, record: HitRecord) returns (hit: bool)
    modifies record
    ensures hit <==> Hit(tri, ray, tMin, tMax).Some?
    ensures hit ==> record.Value() == Hit(tri, ray, tMin, tMax).value
    ensures !hit ==> record.Value() == old(record.Value())
  {
    var vertex0, vertex1, vertex2 := tri.p0, tri.p1, tri.p2;
    var edge1 := Sub(vertex1, vertex0);
    var edge2 := Sub(vertex2, vertex0);
    var h := Cross(ray.direction, edge2);
    var a := Dot(edge1, h);
    if Abs(a) < Epsilon { return false; }

    var f := 1.0 / a;
    var s := Sub(P.AsVector(ray.origin), vertex0);
    var q := Cross(s, edge1);
    var sh, dq, eq := Dot(s, h), Dot(ray.direction, q), Dot(edge2, q);
    assert Solve(tri, ray) == Accept(a, f, sh, dq, eq);
    var u := f * sh;
    if u < 0.0 || u > 1.0 { return false; }

    var v := f * dq;
    if v < 0.0 || u + v > 1.0 { return false; }

    var t := f * eq;
    Accepted(a, f, sh, dq, eq);
    if t < tMin || t > tMax { return false; }

    record.t := t;
    record.point := At(ray, t);
    record.SetFaceNormal(ray, tri.normal);
    record.material := tri.material;
    return true;
  }

  /** `translate` shifts the vertices and rebuilds through `new`, so the material is dropped. */
  function Translate(tri: Triangle, offset: Vec3, sqrt: real -> real): (r: Triangle)
    ensures r.p0 == Add(tri.p0, offset) && r.p1 == Add(tri.p1, offset) && r.p2 == Add(tri.p2, offset)
    ensures WellFormed(r)
    ensures WellFormed(tri) ==> r.edge10 == tri.edge10 && r.edge20 == tri.edge20
    ensures r.material == None
  {
    New(Add(tri.p0, offset), Add(tri.p1, offset), Add(tri.p2, offset), sqrt)
  }

  /** `set_material`, as the updated value. */
  function SetMaterial(tri: Triangle, m: Material): (r: Triangle)
    ensures r.material == Some(m)
    ensures r == tri.(material := r.material)
    ensures WellFormed(tri) ==> WellFormed(r)
  {
    tri.(material := Some(m))
  }

  /** `get_material`: setting the reported material again changes nothing. */
  function GetMaterial(tri: Triangle): (m: Option<Material>)
    ensures m.Some? ==> SetMaterial(tri, m.value) == tri
  {
    tri.material
  }

  /** `get_position` is the centroid: three times it is the sum of the vertices. */
  function Position(tri: Triangle): (c: P.Point3)
    ensures WellFormed(tri) ==> Scale(P.AsVector(c), 3.0) == Add(Add(tri.p0, tri.p1), tri.p2)
  {
    tri.center
  }

  /**
   * `get_bounding_volume` through min/max_elementwise. The min corner is below every
   * vertex, but the max corner's y is taken from the second and third vertices' z.
   */
  function BoundingVolume(tri: Triangle): (b: BV.BoundingVolume)
    ensures BV.Below(b.min, P.Point3(tri.p0.x, tri.p0.y, tri.p0.z))
    ensures BV.Below(b.min, P.Point3(tri.p1.x, tri.p1.y, tri.p1.z))
    ensures BV.Below(b.min, P.Point3(tri.p2.x, tri.p2.y, tri.p2.z))
    ensures b.max.x >= tri.p0.x && b.max.x >= tri.p1.x && b.max.x >= tri.p2.x
    ensures b.max.z >= tri.p0.z && b.max.z >= tri.p1.z && b.max.z >= tri.p2.z
    ensures b.max.y == Max(Max(tri.p0.y, tri.p1.z), tri.p2.z)
  {
    var lo := MinElementwise(MinElementwise(tri.p0, tri.p1), tri.p2);
    var hi := MaxElementwise(MaxElementwise(tri.p0, tri.p1), tri.p2);
    BV.BoundingVolume(P.Point3(lo.x, lo.y, lo.z), P.Point3(hi.x, hi.y, hi.z))
  }

  /** The surface point at weights `a`, `b` along the cached edges. */
  function OnSurface(tri: Triangle, a: real, b: real): P.Point3
  {
    var v := Add(Add(tri.p0, Scale(tri.edge10, a)), Scale(tri.edge20, b));
    P.Point3(v.x, v.y, v.z)
  }

  /**
   * `random_point_on_surface` with its two draws passed in: weights summing to 1 or more
   * are reflected, so draws in [0, 1] give a point of the triangle.
   */
  method RandomPointOnSurface(tri: Triangle, drawA: real, drawB: real) returns (p: P.Point3)
    ensures p == OnSurface(tri, drawA, drawB) || p == OnSurface(tri, 1.0 - drawA, 1.0 - drawB)
    ensures 0.0 <= drawA <= 1.0 && 0.0 <= drawB <= 1.0 ==>
      exists a, b :: 0.0 <= a && 0.0 <= b && a + b <= 1.0 && p == OnSurface(tri, a, b)
  {
    var a, b := drawA, drawB;
    if a + b >= 1.0 {
      a := 1.0 - a;
      b := 1.0 - b;
    }
    p := OnSurface(tri, a, b);
    assert 0.0 <= drawA <= 1.0 && 0.0 <= drawB <= 1.0 ==> 0.0 <= a && 0.0 <= b && a + b <= 1.0;
  }

  // Properties

  /**
   * Möller–Trumbore solves the ray/plane system exactly: the ray at the returned
   * parameter is the point with the returned barycentric weights, so with the weight
   * bounds of `Solve` every hit lies on the triangle.
   */
  lemma {:induction false} SolveIsOnTriangle(tri: Triangle, ray: Ray)
    requires Solve(tri, ray).Some?
    ensures var b := Solve(tri, ray).value;
      P.AsVector(At(ray, b.t)) == Interpolate(tri, b.u, b.v)
  {
    var d := ray.direction;
    var e1 := Sub(tri.p1, tri.p0);
    var e2 := Sub(tri.p2, tri.p0);
    var s := Sub(P.AsVector(ray.origin), tri.p0);
    var a := Dot(e1, Cross(d, e2));
    var f := Reciprocal(a);
    var b := Solve(tri, ray).value;
    assert b == Barycentric(f * Dot(s, Cross(d, e2)), f * Dot(d, Cross(s, e1)), f * Dot(e2, Cross(s, e1)));
    SolvedSystem(d, e1, e2, s, f);
  }

  /** The three scaled solutions of the Möller–Trumbore system satisfy it. */
  lemma SolvedSystem(d: Vec3, e1: Vec3, e2: Vec3, s: Vec3, f: real)
    requires f * Dot(e1, Cross(d, e2)) == 1.0
    ensures var u, v, t := f * Dot(s, Cross(d, e2)), f * Dot(d, Cross(s, e1)), f * Dot(e2, Cross(s, e1));
      Add(s, Scale(d, t)) == Add(Scale(e1, u), Scale(e2, v))
  {
    Cramer(d, e1, e2, s);
    ScaledSystem(d, e1, e2, s, Dot(e1, Cross(d, e2)), f, Dot(e2, Cross(s, e1)), Dot(s, Cross(d, e2)), Dot(d, Cross(s, e1)));
  }

  /** Dividing the three components of Cramer's identity by the determinant. */
  lemma ScaledSystem(d: Vec3, e1: Vec3, e2: Vec3, s: Vec3, a: real, f: real, tq: real, uq: real, vq: real)
    requires f * a == 1.0
    requires a * s.x + tq * d.x == uq * e1.x + vq * e2.x
    requires a * s.y + tq * d.y == uq * e1.y + vq * e2.y
    requires a * s.z + tq * d.z == uq * e1.z + vq * e2.z
    ensures Add(s, Scale(d, f * tq)) == Add(Scale(e1, f * uq), Scale(e2, f * vq))
  {
    var l, r := Add(s, Scale(d, f * tq)), Add(Scale(e1, f * uq), Scale(e2, f * vq));
    assert l.x == r.x by { ScaledCramer(a, f, s.x, d.x, e1.x, e2.x, tq, uq, vq); }
    assert l.y == r.y by { ScaledCramer(a, f, s.y, d.y, e1.y, e2.y, tq, uq, vq); }
    assert l.z == r.z by { ScaledCramer(a, f, s.z, d.z, e1.z, e2.z, tq, uq, vq); }
  }

  /** Cramer's rule for the system `s = u e1 + v e2 - t d`, multiplied out by its determinant. */
  lemma Cramer(d: Vec3, e1: Vec3, e2: Vec3, s: Vec3)
    ensures Dot(e1, Cross(d, e2)) * s.x + Dot(e2, Cross(s, e1)) * d.x
         == Dot(s, Cross(d, e2)) * e1.x + Dot(d, Cross(s, e1)) * e2.x
    ensures Dot(e1, Cross(d, e2)) * s.y + Dot(e2, Cross(s, e1)) * d.y
         == Dot(s, Cross(d, e2)) * e1.y + Dot(d, Cross(s, e1)) * e2.y
    ensures Dot(e1, Cross(d, e2)) * s.z + Dot(e2, Cross(s, e1)) * d.z
         == Dot(s, Cross(d, e2)) * e1.z + Dot(d, Cross(s, e1)) * e2.z
  {
    CramerX(d, e1, e2, s);
    CramerY(d, e1, e2, s);
    CramerZ(d, e1, e2, s);
  }

  /** The x component of Cramer's identity. */
  lemma CramerX(d: Vec3, e1: Vec3, e2: Vec3, s: Vec3)
    ensures Dot(e1, Cross(d, e2)) * s.x + Dot(e2, Cross(s, e1)) * d.x
         == Dot(s, Cross(d, e2)) * e1.x + Dot(d, Cross(s, e1)) * e2.x
  {
  }

  /** The y component of Cramer's identity. */
  lemma CramerY(d: Vec3, e1: Vec3, e2: Vec3, s: Vec3)
    ensures Dot(e1, Cross(d, e2)) * s.y + Dot(e2, Cross(s, e1)) * d.y
         == Dot(s, Cross(d, e2)) * e1.y + Dot(d, Cross(s, e1)) * e2.y
  {
  }

  /** The z component of Cramer's identity. */
  lemma CramerZ(d: Vec3, e1: Vec3, e2: Vec3, s: Vec3)
    ensures Dot(e1, Cross(d, e2)) * s.z + Dot(e2, Cross(s, e1)) * d.z
         == Dot(s, Cross(d, e2)) * e1.z + Dot(d, Cross(s, e1)) * e2.z
  {
  }

  /** Dividing one component of Cramer's identity by the determinant. */
  lemma ScaledCramer(a: real, f: real, s: real, d: real, e1: real, e2: real, tq: real, uq: real, vq: real)
    requires f * a == 1.0
    requires a * s + tq * d == uq * e1 + vq * e2
    ensures s + (f * tq) * d == (f * uq) * e1 + (f * vq) * e2
  {
    calc {
      s + (f * tq) * d;
      == (f * a) * s + f * (tq * d);
      == f * (a * s + tq * d);
      == f * (uq * e1 + vq * e2);
      == (f * uq) * e1 + (f * vq) * e2;
    }
  }

  /** A hit of `intersect_mt` is a point of the triangle. */
  lemma {:induction false} HitIsOnTriangle(tri: Triangle, ray: Ray, tMin: real, tMax: real)
    requires Hit(tri, ray, tMin, tMax).Some?
    ensures exists u, v ::
      (0.0 <= u && 0.0 <= v && u + v <= 1.0 &&
       P.AsVector(Hit(tri, ray, tMin, tMax).value.point) == Interpolate(tri, u, v))
  {
    var b := Solve(tri, ray).value;
    SolveIsOnTriangle(tri, ray);
    assert P.AsVector(Hit(tri, ray, tMin, tMax).value.point) == Interpolate(tri, b.u, b.v);
  }

  /**
   * Narrowing the far end of the window keeps a hit that is still inside it and loses
   * one that is not; nothing else can appear.
   */
  lemma {:induction false} HitNarrowing(tri: Triangle, ray: Ray, tMin: real, tMax: real, c: real)
    requires c <= tMax
    ensures Hit(tri, ray, tMin, c) ==
      (if Hit(tri, ray, tMin, tMax).Some? && Hit(tri, ray, tMin, tMax).value.t <= c
       then Hit(tri, ray, tMin, tMax) else None)
  {
  }

  /** Translation keeps the normal, since the edges are unchanged. */
  lemma TranslateKeepsShape(tri: Triangle, offset: Vec3, sqrt: real -> real)
    requires tri == New(tri.p0, tri.p1, tri.p2, sqrt)
    ensures Translate(tri, offset, sqrt).normal == tri.normal
    ensures Translate(tri, offset, sqrt).center == P.AddVec(tri.center, offset)
  {
  }

  /** The bounding volume can miss a vertex: here the second vertex lies above its max y. */
  lemma BoundingVolumeMissesVertex()
    ensures var tri := Triangle(Zero(), Vec3(0.0, 5.0, 0.0), Zero(), Zero(), None, P.Point3(0.0, 5.0 / 3.0, 0.0), Vec3(0.0, 5.0, 0.0), Zero());
      WellFormed(tri) && !BV.Inside(P.Point3(0.0, 5.0, 0.0), BoundingVolume(tri))
  {
  }
}

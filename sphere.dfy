/**
 * Spheres of src/objects/sphere.rs: the quadratic ray intersection, which tries the
 * nearer root first and falls back to the farther one, and the bounding volume.
 */
module Spheres {
  import opened Wrappers
  import opened Vector
  import P = Point
  import Point3Ops
  import opened Materials
  import opened Rays
  import BV = BoundingVolumes

  datatype Sphere = Sphere(center: P.Point3, radius: real, inverseRadius: real, material: Material)

  /** `Sphere::new` caches `1 / radius`. */
  function New(center: P.Point3, radius: real, material: Material): (s: Sphere)
    ensures s.center == center && s.radius == radius && s.material == material
    ensures radius != 0.0 ==> s.inverseRadius * radius == 1.0
  {
    Sphere(center, radius, Reciprocal(radius), material)
  }

  /**
   * `in_range_f32` of the crate's utilities, which are not part of this model; taken to
   * be the closed interval.
   */
  predicate InRange(t: real, tMin: real, tMax: real)
  {
    tMin <= t <= tMax
  }

  /** The two candidate parameters, nearer first. */
  datatype Roots = Roots(near: real, far: real)

  /** `b = 2 oc·d`, with `oc` the vector from the centre to the ray origin. */
  function B(s: Sphere, ray: Ray): real
  {
    2.0 * Dot(P.Sub(ray.origin, s.center), ray.direction)
  }

  /** `c = |oc|² - r²`. */
  function C(s: Sphere, ray: Ray): real
  {
    LengthSquared(P.Sub(ray.origin, s.center)) - s.radius * s.radius
  }

  function SolveRoots(s: Sphere, ray: Ray, sqrt: real -> real): Option<Roots>
  {
    RootsOf(B(s, ray), C(s, ray), sqrt)
  }

  /** The roots `(-b ∓ √(b² - 4c)) / 2` of `t² + b t + c`. */
  function RootsOf(b: real, c: real, sqrt: real -> real): (r: Option<Roots>)
    ensures b * b - 4.0 * c < 0.0 <==> r == None
    ensures IsSqrt(sqrt) && r.Some? ==> r.value.near <= r.value.far
  {
    var disc := b * b - 4.0 * c;
    if disc < 0.0 then None
    else
      var d := sqrt(disc);
      Some(Roots((-b - d) / 2.0, (-b + d) / 2.0))
  }

  /** The record written for a hit at parameter `t`: the outward normal is `(point - centre) / r`. */
  function Record(s: Sphere, ray: Ray, t: real): (h: HitData)
    ensures h.t == t && h.point == At(ray, t) && h.material == Some(s.material)
  {
    var point := At(ray, t);
    WithFaceNormal(HitData(t, point, Zero(), false, Some(s.material)), ray, Scale(P.Sub(point, s.center), s.inverseRadius))
  }

  /** The normal of a sphere's record faces against the ray. */
  lemma RecordFacesRay(s: Sphere, ray: Ray, t: real)
    ensures Dot(ray.direction, Record(s, ray, t).normal) <= 0.0
  {
    var point := At(ray, t);
    FaceNormalFacesRay(HitData(t, point, Zero(), false, Some(s.material)), ray, Scale(P.Sub(point, s.center), s.inverseRadius));
  }

  /** The parameter `intersect` settles on: the nearer root if in the window, else the farther. */
  function Choose(roots: Roots, tMin: real, tMax: real): (t: Option<real>)
    ensures t.Some? ==> InRange(t.value, tMin, tMax) && (t.value == roots.near || t.value == roots.far)
    ensures t.None? <==> !InRange(roots.near, tMin, tMax) && !InRange(roots.far, tMin, tMax)
    ensures InRange(roots.near, tMin, tMax) ==> t == Some(roots.near)
  {
    if InRange(roots.near, tMin, tMax) then Some(roots.near)
    else if InRange(roots.far, tMin, tMax) then Some(roots.far)
    else None
  }

  /** The parameter of the hit `intersect` reports, if any. */
  function HitParameter(s: Sphere, ray: Ray, tMin: real, tMax: real, sqrt: real -> real): (t: Option<real>)
    ensures t.Some? ==> InRange(t.value, tMin, tMax)
    ensures t.Some? ==> SolveRoots(s, ray, sqrt).Some?
    ensures t.Some? ==> t.value == SolveRoots(s, ray, sqrt).value.near || t.value == SolveRoots(s, ray, sqrt).value.far
  {
    match SolveRoots(s, ray, sqrt)
    case None => None
    case Some(roots) => Choose(roots, tMin, tMax)
  }

  /** The record `intersect` leaves behind, or None when it returns false. */
  function Hit(s: Sphere, ray: Ray, tMin: real, tMax: real, sqrt: real -> real): (r: Option<HitData>)
    ensures r.Some? ==> InRange(r.value.t, tMin, tMax) && r.value.point == At(ray, r.value.t)
    ensures r.Some? ==> r.value.material == Some(s.material)
    ensures SolveRoots(s, ray, sqrt) == None ==> r == None
    ensures r.Some? ==> r.value.t == SolveRoots(s, ray, sqrt).value.near || r.value.t == SolveRoots(s, ray, sqrt).value.far
  {
    match HitParameter(s, ray, tMin, tMax, sqrt)
    case None => None
    case Some(t) => Some(Record(s, ray, t))
  }

  /** `intersect`: writes the record only on a hit. */
  method Intersect(s: Sphere, ray: Ray, tMin: real, tMax: real, sqrt: real -> real, record: HitRecord) returns (hit: bool)
    modifies record
    ensures hit <==> HitParameter(s, ray, tMin, tMax, sqrt).Some?
    ensures hit ==> record.Value() == Record(s, ray, HitParameter(s, ray, tMin, tMax, sqrt).value)
    ensures !hit ==> record.Value() == old(record.Value())
  {
    var oc := P.Sub(ray.origin, s.center);
    var b := 2.0 * Dot(oc, ray.direction);
    var c := LengthSquared(oc) - s.radius * s.radius;
    var disc := b * b - 4.0 * c;

    if disc < 0.0 {
      assert HitParameter(s, ray, tMin, tMax, sqrt) == None by {
        ParameterFromRoots(s, ray, tMin, tMax, sqrt, b, c);
      }
      return false;
    }

    var root := sqrt(disc);
    var solution1 := -b + root;
    var solution2 := -b - root;
    ghost var roots := Roots(solution2 / 2.0, solution1 / 2.0);
    assert HitParameter(s, ray, tMin, tMax, sqrt) == Choose(roots, tMin, tMax) by {
      ParameterFromRoots(s, ray, tMin, tMax, sqrt, b, c);
    }

    var t := solution2 / 2.0;
    if !InRange(t, tMin, tMax) {
      t := solution1 / 2.0;
      if !InRange(t, tMin, tMax) {
        return false;
      }
    }

    record.t := t;
    record.point := At(ray, record.t);
    var outwardNormal := Scale(P.Sub(record.point, s.center), s.inverseRadius);
    record.SetFaceNormal(ray, outwardNormal);
    record.material := Some(s.material);
    assert record.Value() == Record(s, ray, t);
    return true;
  }

  /** `HitParameter` in terms of the coefficients the method computes. */
  lemma ParameterFromRoots(s: Sphere, ray: Ray, tMin: real, tMax: real, sqrt: real -> real, b: real, c: real)
    requires b == 2.0 * Dot(P.Sub(ray.origin, s.center), ray.direction)
    requires c == LengthSquared(P.Sub(ray.origin, s.center)) - s.radius * s.radius
    ensures b * b - 4.0 * c < 0.0 ==> HitParameter(s, ray, tMin, tMax, sqrt) == None
    ensures b * b - 4.0 * c >= 0.0 ==>
      var root := sqrt(b * b - 4.0 * c);
      HitParameter(s, ray, tMin, tMax, sqrt) == Choose(Roots((-b - root) / 2.0, (-b + root) / 2.0), tMin, tMax)
  {
    assert B(s, ray) == b;
    assert C(s, ray) == c;
    assert SolveRoots(s, ray, sqrt) == RootsOf(b, c, sqrt);
  }

  /** `get_material` always has one. */
  function GetMaterial(s: Sphere): (m: Option<Material>)
    ensures m == Some(s.material)
  {
    Some(s.material)
  }

  /** `get_position` is the centre. */
  function Position(s: Sphere): (p: P.Point3)
    ensures p == s.center
  {
    s.center
  }

  /** `get_bounding_volume`: the centre offset by the radius on every axis. */
  function BoundingVolume(s: Sphere): (b: BV.BoundingVolume)
    ensures s.radius >= 0.0 ==> BV.Valid(b) && BV.Inside(s.center, b)
    ensures Point3Ops.Eq(P.AddVec(b.min, Vec3(s.radius, s.radius, s.radius)), s.center)
    ensures b.max == P.AddVec(s.center, Vec3(s.radius, s.radius, s.radius))
  {
    var offset := Vec3(s.radius, s.radius, s.radius);
    BV.BoundingVolume(Point3Ops.SubVec(s.center, offset), P.AddVec(s.center, offset))
  }

  // Properties

  /** Each root solves `t² + b t + c = 0`. */
  lemma RootsSolveQuadratic(b: real, c: real, sqrt: real -> real)
    requires IsSqrt(sqrt) && RootsOf(b, c, sqrt).Some?
    ensures var r := RootsOf(b, c, sqrt).value;
      r.near * r.near + b * r.near + c == 0.0 && r.far * r.far + b * r.far + c == 0.0
  {
    var disc := b * b - 4.0 * c;
    var d := sqrt(disc);
    assert d * d == disc;
    var r := RootsOf(b, c, sqrt).value;
    assert 4.0 * (r.near * r.near + b * r.near + c) == (-b - d) * (-b - d) + 2.0 * b * (-b - d) + 4.0 * c;
    assert 4.0 * (r.far * r.far + b * r.far + c) == (-b + d) * (-b + d) + 2.0 * b * (-b + d) + 4.0 * c;
  }

  /** The same for a parameter known to be one of the roots. */
  lemma RootSolves(b: real, c: real, sqrt: real -> real, t: real)
    requires IsSqrt(sqrt) && RootsOf(b, c, sqrt).Some?
    requires t == RootsOf(b, c, sqrt).value.near || t == RootsOf(b, c, sqrt).value.far
    ensures t * t + b * t + c == 0.0
  {
    var r := RootsOf(b, c, sqrt).value;
    RootsSolveQuadratic(b, c, sqrt);
    if t == r.near {
      assert t * t + b * t + c == r.near * r.near + b * r.near + c;
    } else {
      assert t * t + b * t + c == r.far * r.far + b * r.far + c;
    }
  }

  /** A hit point lies inside the sphere's bounding volume when the radius is not negative. */
  lemma HitInsideBox(s: Sphere, ray: Ray, tMin: real, tMax: real, sqrt: real -> real)
    requires IsSqrt(sqrt) && LengthSquared(ray.direction) == 1.0 && s.radius >= 0.0
    requires Hit(s, ray, tMin, tMax, sqrt).Some?
    ensures BV.Inside(Hit(s, ray, tMin, tMax, sqrt).value.point, BoundingVolume(s))
  {
    HitIsOnSphere(s, ray, tMin, tMax, sqrt);
    SurfaceInsideBox(s, Hit(s, ray, tMin, tMax, sqrt).value.point);
  }

  /** Every point of the surface lies inside the bounding volume. */
  lemma SurfaceInsideBox(s: Sphere, p: P.Point3)
    requires s.radius >= 0.0 && LengthSquared(P.Sub(p, s.center)) == s.radius * s.radius
    ensures BV.Inside(p, BoundingVolume(s))
  {
    var d := P.Sub(p, s.center);
    WithinRadius(d.x, d.y * d.y + d.z * d.z, s.radius);
    WithinRadius(d.y, d.x * d.x + d.z * d.z, s.radius);
    WithinRadius(d.z, d.x * d.x + d.y * d.y, s.radius);
  }

  /** A coordinate of a vector of length `r` lies within `r` of zero. */
  lemma WithinRadius(x: real, rest: real, r: real)
    requires r >= 0.0 && rest >= 0.0 && x * x + rest == r * r
    ensures -r <= x <= r
  {
    BelowRadius(x, rest, r);
    assert (-x) * (-x) == x * x;
    BelowRadius(-x, rest, r);
  }

  /** The upper half of the previous lemma. */
  lemma BelowRadius(x: real, rest: real, r: real)
    requires r >= 0.0 && rest >= 0.0 && x * x + rest == r * r
    ensures x <= r
  {
    var e := x - r;
    assert x * x == r * r + 2.0 * r * e + e * e;
    assert e > 0.0 ==> e * e > 0.0 && r * e >= 0.0;
  }

  /**
   * For a ray with a unit direction and a true square root, every hit point lies on the
   * sphere.
   */
  lemma {:induction false} HitIsOnSphere(s: Sphere, ray: Ray, tMin: real, tMax: real, sqrt: real -> real)
    requires IsSqrt(sqrt) && LengthSquared(ray.direction) == 1.0
    requires Hit(s, ray, tMin, tMax, sqrt).Some?
    ensures var h := Hit(s, ray, tMin, tMax, sqrt).value;
      LengthSquared(P.Sub(h.point, s.center)) == s.radius * s.radius
  {
    var h := Hit(s, ray, tMin, tMax, sqrt).value;
    RootIsOnSphere(s, ray, sqrt, h.t);
  }

  /** Both roots of the quadratic are parameters at which a unit-direction ray meets the sphere. */
  lemma RootIsOnSphere(s: Sphere, ray: Ray, sqrt: real -> real, t: real)
    requires IsSqrt(sqrt) && LengthSquared(ray.direction) == 1.0
    requires SolveRoots(s, ray, sqrt).Some?
    requires t == SolveRoots(s, ray, sqrt).value.near || t == SolveRoots(s, ray, sqrt).value.far
    ensures LengthSquared(P.Sub(At(ray, t), s.center)) == s.radius * s.radius
  {
    RootSolves(B(s, ray), C(s, ray), sqrt, t);
    SolutionIsOnSphere(s, ray, t);
  }

  /** A parameter solving `t² + b t + c = 0` for a unit-direction ray is a point of the sphere. */
  lemma SolutionIsOnSphere(s: Sphere, ray: Ray, t: real)
    requires LengthSquared(ray.direction) == 1.0
    requires t * t + B(s, ray) * t + C(s, ray) == 0.0
    ensures LengthSquared(P.Sub(At(ray, t), s.center)) == s.radius * s.radius
  {
    var w := Add(P.Sub(ray.origin, s.center), Scale(ray.direction, t));
    assert LengthSquared(w) == s.radius * s.radius by {
      PolynomialOnSphere(P.Sub(ray.origin, s.center), ray.direction, s.radius, t, B(s, ray), C(s, ray));
    }
    FromCentre(s, ray, t);
  }

  /** The same step for the offset `oc` of the ray origin from the centre. */
  lemma PolynomialOnSphere(oc: Vec3, d: Vec3, r: real, t: real, b: real, c: real)
    requires LengthSquared(d) == 1.0
    requires b == 2.0 * Dot(oc, d) && c == LengthSquared(oc) - r * r
    requires t * t + b * t + c == 0.0
    ensures LengthSquared(Add(oc, Scale(d, t))) == r * r
  {
    ExpandSquare(oc, d, t);
    OnSphere(LengthSquared(Add(oc, Scale(d, t))), LengthSquared(oc), Dot(oc, d), b, c, r * r, t, LengthSquared(d));
  }

  /** The vector from the centre to the point at `t` is `oc + t d`. */
  lemma FromCentre(s: Sphere, ray: Ray, t: real)
    ensures P.Sub(At(ray, t), s.center) == Add(P.Sub(ray.origin, s.center), Scale(ray.direction, t))
  {
  }

  /** The scalar step of the previous lemma. */
  lemma OnSphere(x: real, ls: real, od: real, b: real, c: real, r2: real, t: real, l2: real)
    requires l2 == 1.0 && b == 2.0 * od && c == ls - r2 && t * t + b * t + c == 0.0
    requires x == ls + 2.0 * t * od + t * t * l2
    ensures x == r2
  {
  }

  /** `|o + t d|² = |o|² + 2t (o·d) + t² |d|²`. */
  lemma ExpandSquare(o: Vec3, d: Vec3, t: real)
    ensures LengthSquared(Add(o, Scale(d, t))) == LengthSquared(o) + 2.0 * t * Dot(o, d) + t * t * LengthSquared(d)
  {
    assert (o.x + d.x * t) * (o.x + d.x * t) == o.x * o.x + 2.0 * t * (o.x * d.x) + t * t * (d.x * d.x);
    assert (o.y + d.y * t) * (o.y + d.y * t) == o.y * o.y + 2.0 * t * (o.y * d.y) + t * t * (d.y * d.y);
    assert (o.z + d.z * t) * (o.z + d.z * t) == o.z * o.z + 2.0 * t * (o.z * d.z) + t * t * (d.z * d.z);
  }

  /** The nearer root wins whenever it is in the window. */
  lemma NearerRootFirst(s: Sphere, ray: Ray, tMin: real, tMax: real, sqrt: real -> real)
    requires SolveRoots(s, ray, sqrt).Some? && InRange(SolveRoots(s, ray, sqrt).value.near, tMin, tMax)
    ensures Hit(s, ray, tMin, tMax, sqrt) == Some(Record(s, ray, SolveRoots(s, ray, sqrt).value.near))
  {
  }

  /**
   * With a true square root, narrowing the far end of the window keeps a hit still inside
   * it and loses one that is not; nothing else can appear.
   */
  lemma {:induction false} HitNarrowing(s: Sphere, ray: Ray, tMin: real, tMax: real, c: real, sqrt: real -> real)
    requires IsSqrt(sqrt) && c <= tMax
    ensures Hit(s, ray, tMin, c, sqrt) ==
      (if Hit(s, ray, tMin, tMax, sqrt).Some? && Hit(s, ray, tMin, tMax, sqrt).value.t <= c
       then Hit(s, ray, tMin, tMax, sqrt) else None)
  {
    match SolveRoots(s, ray, sqrt)
    case None =>
    case Some(roots) =>
      assert roots.near <= roots.far;
  }
}

/**
 * The intersectable primitives a scene holds (the `RTXIntersectable` trait of
 * src/rtx_traits.rs): triangles and spheres, dispatched by kind.
 */
module Primitives {
  import opened Wrappers
  import opened Vector
  import P = Point
  import opened Materials
  import opened Rays
  import BV = BoundingVolumes
  import Triangles
  import Spheres

  datatype Primitive = Tri(tri: Triangles.Triangle) | Sph(sphere: Spheres.Sphere)

  /**
   * The record `intersect` leaves behind, or None when it reports a miss. `sqrt` is the
   * square root the sphere test uses.
   */
  function Hit(p: Primitive, ray: Ray, tMin: real, tMax: real, sqrt: real -> real): (r: Option<HitData>)
    ensures r.Some? ==> tMin <= r.value.t <= tMax && r.value.point == At(ray, r.value.t)
    ensures r.Some? ==> r.value.material == GetMaterial(p)
  {
    match p
    case Tri(tri) => Triangles.Hit(tri, ray, tMin, tMax)
    case Sph(s) => Spheres.Hit(s, ray, tMin, tMax, sqrt)
  }

  /** `intersect`: reports a hit and fills the record, or leaves it untouched. */
  method Intersect(p: Primitive, ray: Ray, tMin: real, tMax: real, sqrt: real -> real, record: HitRecord) returns (hit: bool)
    modifies record
    ensures hit <==> Hit(p, ray, tMin, tMax, sqrt).Some?
    ensures hit ==> record.Value() == Hit(p, ray, tMin, tMax, sqrt).value
    ensures !hit ==> record.Value() == old(record.Value())
  {
    match p
    case Tri(tri) =>
      hit := Triangles.IntersectMt(tri, ray, tMin, tMax, record);
    case Sph(s) =>
      hit := Spheres.Intersect(s, ray, tMin, tMax, sqrt, record);
  }

  function GetMaterial(p: Primitive): (m: Option<Material>)
    ensures p.Sph? ==> m == Some(p.sphere.material)
    ensures p.Tri? ==> m == p.tri.material
  {
    match p
    case Tri(tri) => Triangles.GetMaterial(tri)
    case Sph(s) => Spheres.GetMaterial(s)
  }

  function Position(p: Primitive): (c: P.Point3)
    ensures p.Sph? ==> c == p.sphere.center
    ensures p.Tri? && Triangles.WellFormed(p.tri) ==> Scale(P.AsVector(c), 3.0) == Add(Add(p.tri.p0, p.tri.p1), p.tri.p2)
  {
    match p
    case Tri(tri) => Triangles.Position(tri)
    case Sph(s) => Spheres.Position(s)
  }

  function BoundingVolume(p: Primitive): BV.BoundingVolume
  {
    match p
    case Tri(tri) => Triangles.BoundingVolume(tri)
    case Sph(s) => Spheres.BoundingVolume(s)
  }

  // Properties

  /**
   * Shrinking the far end of the window to `c` keeps a hit at or before `c` and drops
   * one beyond it; for spheres this needs a true square root.
   */
  lemma {:induction false} HitNarrowing(p: Primitive, ray: Ray, tMin: real, tMax: real, c: real, sqrt: real -> real)
    requires IsSqrt(sqrt) && c <= tMax
    ensures Hit(p, ray, tMin, c, sqrt) ==
      (if Hit(p, ray, tMin, tMax, sqrt).Some? && Hit(p, ray, tMin, tMax, sqrt).value.t <= c
       then Hit(p, ray, tMin, tMax, sqrt) else None)
  {
    match p
    case Tri(tri) => Triangles.HitNarrowing(tri, ray, tMin, tMax, c);
    case Sph(s) => Spheres.HitNarrowing(s, ray, tMin, tMax, c, sqrt);
  }
}

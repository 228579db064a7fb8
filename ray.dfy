/**
 * Rays and hit records of src/geometry/ray.rs. A ray keeps its normalised direction and
 * the componentwise reciprocal of that direction for the slab test; a hit record is the
 * mutable out-parameter every intersection routine writes.
 */
module Rays {
  import opened Wrappers
  import opened Vector
  import P = Point
  import opened Materials

  datatype Ray = Ray(origin: P.Point3, direction: Vec3, currentIor: real, invDirection: Vec3)

  /**
   * `1.0 / c`. A zero component gives an infinity in IEEE arithmetic; reals have none,
   * so the model stores 0 there.
   */
  function Reciprocal(c: real): (r: real)
    ensures c != 0.0 ==> r * c == 1.0
    ensures c == 0.0 ==> r == 0.0
  {
    if c == 0.0 then 0.0 else 1.0 / c
  }

  /** `Ray::new`: the direction is normalised and its reciprocal cached; the medium is air. */
  function New(origin: P.Point3, direction: Vec3, sqrt: real -> real): (r: Ray)
    ensures r.origin == origin && r.currentIor == 1.0
    ensures r.direction == Normalize(direction, sqrt)
    ensures r.direction.x != 0.0 ==> r.invDirection.x * r.direction.x == 1.0
    ensures r.direction.y != 0.0 ==> r.invDirection.y * r.direction.y == 1.0
    ensures r.direction.z != 0.0 ==> r.invDirection.z * r.direction.z == 1.0
  {
    var dir := Normalize(direction, sqrt);
    Ray(origin, dir, 1.0, Vec3(Reciprocal(dir.x), Reciprocal(dir.y), Reciprocal(dir.z)))
  }

  /** `at(t)`: the point reached after travelling `t` along the direction. */
  function At(ray: Ray, t: real): (p: P.Point3)
    ensures P.Sub(p, ray.origin) == Scale(ray.direction, t)
  {
    P.AddVec(ray.origin, Scale(ray.direction, t))
  }

  /** The five fields of a hit record as a value. */
  datatype HitData = HitData(t: real, point: P.Point3, normal: Vec3, frontFace: bool, material: Option<Material>)

  /** What `HitRecord::new` holds. */
  function EmptyHit(): HitData
  {
    HitData(0.0, P.Default(), Zero(), false, None)
  }

  /**
   * `set_face_normal` applied to a record value: the hit is on the front face when the
   * ray travels against the outward normal, and the stored normal always faces the ray.
   */
  function WithFaceNormal(h: HitData, ray: Ray, outward: Vec3): (r: HitData)
    ensures r.t == h.t && r.point == h.point && r.material == h.material
    ensures r.frontFace <==> Dot(ray.direction, outward) < 0.0
    ensures r.normal == outward || r.normal == Neg(outward)
    ensures r.frontFace ==> r.normal == outward
  {
    var front := Dot(ray.direction, outward) < 0.0;
    h.(frontFace := front, normal := if front then outward else Neg(outward))
  }

  /** The normal `set_face_normal` stores always faces against the ray. */
  lemma FaceNormalFacesRay(h: HitData, ray: Ray, outward: Vec3)
    ensures Dot(ray.direction, WithFaceNormal(h, ray, outward).normal) <= 0.0
  {
    NegatedDot(ray.direction, outward);
  }

  lemma NegatedDot(a: Vec3, b: Vec3)
    ensures Dot(a, Neg(b)) == -Dot(a, b)
  {
  }

  /** The mutable hit record. */
  class HitRecord {
    var t: real
    var point: P.Point3
    var normal: Vec3
    var frontFace: bool
    var material: Option<Material>

    function Value(): HitData
      reads this
    {
      HitData(t, point, normal, frontFace, material)
    }

    /** `HitRecord::new`: everything zero, no material. */
    constructor ()
      ensures Value() == EmptyHit()
    {
      t := 0.0;
      point := P.Default();
      normal := Zero();
      frontFace := false;
      material := None;
    }

    method SetFaceNormal(ray: Ray, outward: Vec3)
      modifies this
      ensures Value() == WithFaceNormal(old(Value()), ray, outward)
    {
      frontFace := Dot(ray.direction, outward) < 0.0;
      normal := if frontFace then outward else Neg(outward);
    }

    /** `copy_from`: all five fields of `other`. */
    method CopyFrom(other: HitRecord)
      modifies this
      ensures Value() == old(other.Value())
    {
      t := other.t;
      point := other.point;
      normal := other.normal;
      frontFace := other.frontFace;
      material := other.material;
    }
  }

  // Properties

  /** The ray starts at its origin. */
  lemma AtZeroIsOrigin(ray: Ray)
    ensures At(ray, 0.0) == ray.origin
  {
  }

  /** With a true square root, a ray built from a non-zero direction points along a unit vector. */
  lemma NewIsUnit(origin: P.Point3, direction: Vec3, sqrt: real -> real)
    requires IsSqrt(sqrt) && LengthSquared(direction) != 0.0
    ensures LengthSquared(New(origin, direction, sqrt).direction) == 1.0
  {
    var ls := LengthSquared(direction);
    var l := sqrt(ls);
    assert l * l == ls;
    assert l != 0.0;
    var k := 1.0 / l;
    assert k * k * ls == 1.0 by {
      assert k * l == 1.0;
      calc {
        k * k * ls;
        == k * k * (l * l);
        == (k * l) * (k * l);
      }
    }
    var d := Scale(direction, k);
    assert LengthSquared(d) == k * k * ls;
  }

  /** `set_face_normal` only depends on the outward normal, so applying it twice changes nothing. */
  lemma {:induction false} FaceNormalIdempotent(h: HitData, ray: Ray, outward: Vec3)
    ensures WithFaceNormal(WithFaceNormal(h, ray, outward), ray, outward) == WithFaceNormal(h, ray, outward)
  {
  }
}

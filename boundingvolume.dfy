/**
 * The axis-aligned bounding volume of src/bvh.rs: the union fold over a list of boxes,
 * the slab test a ray traversal uses to prune subtrees, and the small diagonal,
 * maximum-extent and lerp helpers.
 */
module BoundingVolumes {
  import opened Vector
  import P = Point
  import B3 = Bounds3
  import opened Rays

  /** `BoundingVolume::new` stores both corners as given, without ordering them. */
  datatype BoundingVolume = BoundingVolume(min: P.Point3, max: P.Point3)

  /** `p <= q` on every axis. */
  predicate Below(p: P.Point3, q: P.Point3)
  {
    p.x <= q.x && p.y <= q.y && p.z <= q.z
  }

  predicate Valid(b: BoundingVolume)
  {
    Below(b.min, b.max)
  }

  predicate Inside(p: P.Point3, b: BoundingVolume)
  {
    Below(b.min, p) && Below(p, b.max)
  }

  /**
   * The fold of `from`, continued from the accumulated corners over the remaining
   * boxes: the result lies below (above) the accumulator and every box, and each of its
   * coordinates comes from the accumulator or from one of the boxes.
   */
  function FoldUnion(lo: P.Point3, hi: P.Point3, volumes: seq<BoundingVolume>): (r: BoundingVolume)
    ensures Below(r.min, lo) && Below(hi, r.max)
    ensures forall i :: 0 <= i < |volumes| ==> Below(r.min, volumes[i].min) && Below(volumes[i].max, r.max)
    ensures r.min.x == lo.x || exists i :: 0 <= i < |volumes| && r.min.x == volumes[i].min.x
    ensures r.min.y == lo.y || exists i :: 0 <= i < |volumes| && r.min.y == volumes[i].min.y
    ensures r.min.z == lo.z || exists i :: 0 <= i < |volumes| && r.min.z == volumes[i].min.z
    ensures r.max.x == hi.x || exists i :: 0 <= i < |volumes| && r.max.x == volumes[i].max.x
    ensures r.max.y == hi.y || exists i :: 0 <= i < |volumes| && r.max.y == volumes[i].max.y
    ensures r.max.z == hi.z || exists i :: 0 <= i < |volumes| && r.max.z == volumes[i].max.z
    decreases |volumes|
  {
    if |volumes| == 0 then BoundingVolume(lo, hi)
    else
      var r := FoldUnion(P.PMin(lo, volumes[0].min), P.PMax(hi, volumes[0].max), volumes[1..]);
      assert forall i :: 1 <= i < |volumes| ==> volumes[i] == volumes[1..][i - 1];
      r
  }

  /**
   * `BoundingVolume::from`: the smallest box holding every input box. The list must be
   * non-empty, since the fold starts from its first element.
   */
  function From(volumes: seq<BoundingVolume>): (r: BoundingVolume)
    requires |volumes| > 0
    ensures forall i :: 0 <= i < |volumes| ==> Below(r.min, volumes[i].min) && Below(volumes[i].max, r.max)
    ensures exists i :: 0 <= i < |volumes| && r.min.x == volumes[i].min.x
    ensures exists i :: 0 <= i < |volumes| && r.min.y == volumes[i].min.y
    ensures exists i :: 0 <= i < |volumes| && r.min.z == volumes[i].min.z
    ensures exists i :: 0 <= i < |volumes| && r.max.x == volumes[i].max.x
    ensures exists i :: 0 <= i < |volumes| && r.max.y == volumes[i].max.y
    ensures exists i :: 0 <= i < |volumes| && r.max.z == volumes[i].max.z
  {
    FoldUnion(volumes[0].min, volumes[0].max, volumes)
  }

  // The slab test.

  /** Where the ray crosses the plane `edge` of one axis: `(edge - origin) * inv_direction`. */
  function Crossing(edge: real, origin: real, inv: real): real
  {
    (edge - origin) * inv
  }

  /** The entry parameter of the ray into the slab of one axis, as `intersect_mod` computes it. */
  function Near(b: BoundingVolume, ray: Ray, axis: nat): real
    requires axis <= 2
  {
    var negative := Index(ray.direction, axis) < 0.0;
    Crossing(if negative then P.Index(b.max, axis) else P.Index(b.min, axis), P.Index(ray.origin, axis), Index(ray.invDirection, axis))
  }

  /** The exit parameter of the ray from the slab of one axis. */
  function Far(b: BoundingVolume, ray: Ray, axis: nat): real
    requires axis <= 2
  {
    var negative := Index(ray.direction, axis) < 0.0;
    Crossing(if negative then P.Index(b.min, axis) else P.Index(b.max, axis), P.Index(ray.origin, axis), Index(ray.invDirection, axis))
  }

  /**
   * What the slab test decides, stated without its early exits: the entry into each slab
   * precedes the exit from every other slab, the latest entry is before `tMax` and the
   * earliest exit after `tMin`.
   */
  predicate SlabsOverlap(b: BoundingVolume, ray: Ray, tMin: real, tMax: real)
  {
    (forall i, j :: 0 <= i <= 2 && 0 <= j <= 2 && i != j ==> Near(b, ray, i) <= Far(b, ray, j))
    && Max(Max(Near(b, ray, 0), Near(b, ray, 1)), Near(b, ray, 2)) < tMax
    && Min(Min(Far(b, ray, 0), Far(b, ray, 1)), Far(b, ray, 2)) > tMin
  }

  /** `intersect_mod`: the slab test with its running interval, x and y first, then z. */
  method IntersectMod(b: BoundingVolume, ray: Ray, tBoundMin: real, tBoundMax: real) returns (hit: bool)
    ensures hit <==> SlabsOverlap(b, ray, tBoundMin, tBoundMax)
  {
    var xNegative := ray.direction.x < 0.0;
    var yNegative := ray.direction.y < 0.0;
    var zNegative := ray.direction.z < 0.0;

    var tMin := Crossing(if xNegative then b.max.x else b.min.x, ray.origin.x, ray.invDirection.x);
    var tMax := Crossing(if xNegative then b.min.x else b.max.x, ray.origin.x, ray.invDirection.x);
    assert tMin == Near(b, ray, 0) && tMax == Far(b, ray, 0);

    var tMinY := Crossing(if yNegative then b.max.y else b.min.y, ray.origin.y, ray.invDirection.y);
    var tMaxY := Crossing(if yNegative then b.min.y else b.max.y, ray.origin.y, ray.invDirection.y);
    assert tMinY == Near(b, ray, 1) && tMaxY == Far(b, ray, 1);

    if tMin > tMaxY || tMinY > tMax {
      return false;
    }
    if tMinY > tMin { tMin := tMinY; }
    if tMaxY < tMax { tMax := tMaxY; }

    var tMinZ := Crossing(if zNegative then b.max.z else b.min.z, ray.origin.z, ray.invDirection.z);
    var tMaxZ := Crossing(if zNegative then b.min.z else b.max.z, ray.origin.z, ray.invDirection.z);
    assert tMinZ == Near(b, ray, 2) && tMaxZ == Far(b, ray, 2);

    if tMin > tMaxZ || tMinZ > tMax {
      return false;
    }
    if tMinZ > tMin { tMin := tMinZ; }
    if tMaxZ < tMax { tMax := tMaxZ; }

    hit := tMin < tBoundMax && tMax > tBoundMin;
  }

  /** `diagonal`: the vector from the min corner to the max corner. */
  function Diagonal(b: BoundingVolume): (d: Vec3)
    ensures P.AddVec(b.min, d) == b.max
    ensures Valid(b) ==> d.x >= 0.0 && d.y >= 0.0 && d.z >= 0.0
  {
    P.Sub(b.max, b.min)
  }

  /** `maximum_extent`: x only when strictly longest, else y when longer than z, else z. */
  function MaximumExtent(b: BoundingVolume): (r: nat)
    ensures r <= 2
    ensures var d := Diagonal(b);
      && (r == 0 <==> d.x > d.y && d.x > d.z)
      && (r == 1 <==> !(d.x > d.y && d.x > d.z) && d.y > d.z)
    ensures forall i :: 0 <= i <= 2 ==> Index(Diagonal(b), r) >= Index(Diagonal(b), i)
  {
    var d := Diagonal(b);
    if d.x > d.y && d.x > d.z then 0
    else if d.y > d.z then 1
    else 2
  }

  /** `lerp`: per axis, `(1 - t) * min + t * max`. */
  function Lerp(b: BoundingVolume, t: Vec3): (r: Vec3)
    ensures Valid(b) && 0.0 <= t.x <= 1.0 && 0.0 <= t.y <= 1.0 && 0.0 <= t.z <= 1.0 ==>
      Inside(P.Point3(r.x, r.y, r.z), b)
  {
    var r := Vec3(B3.LerpScalar(t.x, b.min.x, b.max.x),
                  B3.LerpScalar(t.y, b.min.y, b.max.y),
                  B3.LerpScalar(t.z, b.min.z, b.max.z));
    if Valid(b) && 0.0 <= t.x <= 1.0 && 0.0 <= t.y <= 1.0 && 0.0 <= t.z <= 1.0 then
      B3.LerpScalarBetween(t.x, b.min.x, b.max.x);
      B3.LerpScalarBetween(t.y, b.min.y, b.max.y);
      B3.LerpScalarBetween(t.z, b.min.z, b.max.z);
      r
    else
      r
  }

  // Properties

  /** Lerp at the zero vector is the min corner and at the unit vector the max corner. */
  lemma LerpEndpoints(b: BoundingVolume)
    ensures Lerp(b, Zero()) == P.AsVector(b.min)
    ensures Lerp(b, Vec3(1.0, 1.0, 1.0)) == P.AsVector(b.max)
  {
  }

  /** Along one axis, a ray parameter at which the ray is inside the slab lies between the entry and the exit. */
  lemma SlabAxis(lo: real, hi: real, o: real, d: real, inv: real, t: real)
    requires d != 0.0 && inv * d == 1.0
    requires lo <= o + d * t <= hi
    ensures d < 0.0 ==> (hi - o) * inv <= t <= (lo - o) * inv
    ensures d >= 0.0 ==> (lo - o) * inv <= t <= (hi - o) * inv
  {
    assert t == (d * t) * inv;
    if d < 0.0 {
      assert inv < 0.0;
      assert (hi - o) * inv <= (d * t) * inv;
      assert (d * t) * inv <= (lo - o) * inv;
    } else {
      assert inv > 0.0;
      assert (lo - o) * inv <= (d * t) * inv;
      assert (d * t) * inv <= (hi - o) * inv;
    }
  }

  /** The same fact in terms of `Near` and `Far` for one axis of a box. */
  lemma SlabContains(b: BoundingVolume, ray: Ray, axis: nat, t: real)
    requires axis <= 2
    requires Index(ray.direction, axis) != 0.0
    requires Index(ray.invDirection, axis) * Index(ray.direction, axis) == 1.0
    requires P.Index(b.min, axis) <= P.Index(At(ray, t), axis) <= P.Index(b.max, axis)
    ensures Near(b, ray, axis) <= t <= Far(b, ray, axis)
  {
    assert P.Index(At(ray, t), axis) == P.Index(ray.origin, axis) + Index(ray.direction, axis) * t;
    SlabAxis(P.Index(b.min, axis), P.Index(b.max, axis), P.Index(ray.origin, axis),
             Index(ray.direction, axis), Index(ray.invDirection, axis), t);
  }

  /**
   * The slab test never prunes a box the ray passes through: if the ray is inside a valid
   * box at some parameter strictly between the bounds, the test answers true. This needs
   * every direction component non-zero, so that the cached reciprocals are exact.
   */
  lemma {:induction false} SlabTestIsConservative(b: BoundingVolume, ray: Ray, tMin: real, tMax: real, t: real)
    requires ray.direction.x != 0.0 && ray.direction.y != 0.0 && ray.direction.z != 0.0
    requires ray.invDirection.x * ray.direction.x == 1.0
    requires ray.invDirection.y * ray.direction.y == 1.0
    requires ray.invDirection.z * ray.direction.z == 1.0
    requires tMin < t < tMax && Inside(At(ray, t), b)
    ensures SlabsOverlap(b, ray, tMin, tMax)
  {
    SlabContains(b, ray, 0, t);
    SlabContains(b, ray, 1, t);
    SlabContains(b, ray, 2, t);
    var n0, n1, n2 := Near(b, ray, 0), Near(b, ray, 1), Near(b, ray, 2);
    var f0, f1, f2 := Far(b, ray, 0), Far(b, ray, 1), Far(b, ray, 2);
    assert n0 <= t && n1 <= t && n2 <= t && t <= f0 && t <= f1 && t <= f2;
  }
}

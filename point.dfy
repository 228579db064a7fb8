/**
 * Points of src/geometry/point.rs: a three-component point with permutation, absolute
 * value, componentwise min/max and the point/vector arithmetic, and the two-component
 * point. The duplicate point types of point3.rs and point2.rs share these datatypes.
 */
module Point {
  import opened Vector

  datatype Point3 = Point3(x: real, y: real, z: real)

  datatype Point2 = Point2(x: real, y: real)

  /** Indexing: 0, 1 and 2 select x, y and z; a larger index fails the assertion. */
  function Index(p: Point3, i: nat): (r: real)
    requires i <= 2
    ensures r == Vector.Index(AsVector(p), i)
  {
    match i
    case 0 => p.x
    case 1 => p.y
    case _ => p.z
  }

  /** `permute(i, j, k)`: the point whose coordinates are `p[i]`, `p[j]`, `p[k]`. */
  function Permute(p: Point3, i: nat, j: nat, k: nat): (r: Point3)
    requires i <= 2 && j <= 2 && k <= 2
    ensures Index(r, 0) == Index(p, i) && Index(r, 1) == Index(p, j) && Index(r, 2) == Index(p, k)
  {
    Point3(Index(p, i), Index(p, j), Index(p, k))
  }

  function Abs(p: Point3): (r: Point3)
    ensures r.x >= 0.0 && r.y >= 0.0 && r.z >= 0.0
    ensures (r.x == p.x || r.x == -p.x) && (r.y == p.y || r.y == -p.y) && (r.z == p.z || r.z == -p.z)
  {
    Point3(if p.x < 0.0 then -p.x else p.x,
           if p.y < 0.0 then -p.y else p.y,
           if p.z < 0.0 then -p.z else p.z)
  }

  /** Componentwise minimum through MinMax::min. */
  function PMin(a: Point3, b: Point3): (r: Point3)
    ensures r.x <= a.x && r.x <= b.x && r.y <= a.y && r.y <= b.y && r.z <= a.z && r.z <= b.z
    ensures (r.x == a.x || r.x == b.x) && (r.y == a.y || r.y == b.y) && (r.z == a.z || r.z == b.z)
  {
    Point3(Min(a.x, b.x), Min(a.y, b.y), Min(a.z, b.z))
  }

  /** Componentwise maximum through MinMax::max. */
  function PMax(a: Point3, b: Point3): (r: Point3)
    ensures r.x >= a.x && r.x >= b.x && r.y >= a.y && r.y >= b.y && r.z >= a.z && r.z >= b.z
    ensures (r.x == a.x || r.x == b.x) && (r.y == a.y || r.y == b.y) && (r.z == a.z || r.z == b.z)
  {
    Point3(Max(a.x, b.x), Max(a.y, b.y), Max(a.z, b.z))
  }

  function AsVector(p: Point3): Vec3 { Vec3(p.x, p.y, p.z) }

  /** `point + point`. */
  function Add(p: Point3, q: Point3): Point3 { Point3(p.x + q.x, p.y + q.y, p.z + q.z) }

  /** `point + vector`. */
  function AddVec(p: Point3, v: Vec3): Point3 { Point3(p.x + v.x, p.y + v.y, p.z + v.z) }

  /** `point - point` is the vector from `q` to `p`. */
  function Sub(p: Point3, q: Point3): (v: Vec3)
    ensures AddVec(q, v) == p
  {
    Vec3(p.x - q.x, p.y - q.y, p.z - q.z)
  }

  /** `point - vector` in this file also yields a vector. */
  function SubVec(p: Point3, v: Vec3): (r: Vec3)
    ensures Vector.Add(r, v) == AsVector(p)
  {
    Vec3(p.x - v.x, p.y - v.y, p.z - v.z)
  }

  /** `point * s`. */
  function Scale(p: Point3, s: real): Point3 { Point3(p.x * s, p.y * s, p.z * s) }

  /** `s * point`, multiplying with the scalar on the left. */
  function ScaleLeft(s: real, p: Point3): (r: Point3)
    ensures r == Scale(p, s)
  {
    Point3(s * p.x, s * p.y, s * p.z)
  }

  function Default(): Point3 { Point3(0.0, 0.0, 0.0) }

  /** `Point2::from_point3` keeps x and y. */
  function Point2FromPoint3(p: Point3): (r: Point2)
    ensures r.x == Index(p, 0) && r.y == Index(p, 1)
  {
    Point2(p.x, p.y)
  }

  // Properties

  lemma PermuteIdentity(p: Point3)
    ensures Permute(p, 0, 1, 2) == p
  {
  }

  lemma PermuteSwapIsInvolution(p: Point3)
    ensures Permute(Permute(p, 1, 0, 2), 1, 0, 2) == p
    ensures Permute(Permute(p, 2, 0, 1), 1, 2, 0) == p
  {
  }

  lemma MinBelowMax(a: Point3, b: Point3)
    ensures var lo, hi := PMin(a, b), PMax(a, b);
      lo.x <= hi.x && lo.y <= hi.y && lo.z <= hi.z
  {
  }

  /** Adding points is commutative and the default point (the origin) is its unit. */
  lemma AddCommutesWithOrigin(p: Point3, q: Point3)
    ensures Add(p, q) == Add(q, p)
    ensures Add(p, Default()) == p
  {
  }

  lemma AddDifference(p: Point3, q: Point3)
    ensures AddVec(p, Sub(q, p)) == q
    ensures Sub(p, p) == Zero()
  {
  }
}

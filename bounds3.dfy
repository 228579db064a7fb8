/**
 * The axis-aligned box of src/geometry/bounds3.rs. Boxes are only built through `new`,
 * which sorts each coordinate pair, so every box the operations return is well formed.
 */
module Bounds3 {
  import opened Vector
  import opened Point
  import Point3Ops

  datatype Bounds3 = Bounds3(pMin: Point3, pMax: Point3)

  /** `p_min` is componentwise at most `p_max`. */
  predicate Valid(b: Bounds3)
  {
    b.pMin.x <= b.pMax.x && b.pMin.y <= b.pMax.y && b.pMin.z <= b.pMax.z
  }

  predicate PointInside(b: Bounds3, p: Point3)
  {
    p.x >= b.pMin.x && p.x <= b.pMax.x &&
    p.y >= b.pMin.y && p.y <= b.pMax.y &&
    p.z >= b.pMin.z && p.z <= b.pMax.z
  }

  /** `inner` lies within `outer`. */
  predicate Contains(outer: Bounds3, inner: Bounds3)
  {
    outer.pMin.x <= inner.pMin.x && outer.pMin.y <= inner.pMin.y && outer.pMin.z <= inner.pMin.z &&
    inner.pMax.x <= outer.pMax.x && inner.pMax.y <= outer.pMax.y && inner.pMax.z <= outer.pMax.z
  }

  /** `new(p1, p2)`: the smallest box holding both points. */
  function New(p1: Point3, p2: Point3): (b: Bounds3)
    ensures Valid(b)
    ensures PointInside(b, p1) && PointInside(b, p2)
    ensures forall c: Bounds3 :: PointInside(c, p1) && PointInside(c, p2) ==> Contains(c, b)
  {
    Bounds3(PMin(p1, p2), PMax(p1, p2))
  }

  /** `diagonal`: `p_max - p_min`. */
  function Diagonal(b: Bounds3): (d: Vec3)
    ensures Valid(b) ==> d.x >= 0.0 && d.y >= 0.0 && d.z >= 0.0
    ensures AddVec(b.pMin, d) == b.pMax
  {
    Point.Sub(b.pMax, b.pMin)
  }

  /** `surface_area`: `2 (dx dy + dx dz + dy dz)`. */
  function SurfaceArea(b: Bounds3): (a: real)
    ensures Valid(b) ==> a >= 0.0
  {
    var d := Diagonal(b);
    NonNegProduct(b);
    2.0 * (d.x * d.y + d.x * d.z + d.y * d.z)
  }

  /** `volume`: `dx dy dz`. */
  function Volume(b: Bounds3): (v: real)
    ensures Valid(b) ==> v >= 0.0
  {
    var d := Diagonal(b);
    NonNegProduct(b);
    d.x * d.y * d.z
  }

  lemma NonNegProduct(b: Bounds3)
    ensures var d := Diagonal(b);
      Valid(b) ==> d.x * d.y >= 0.0 && d.x * d.z >= 0.0 && d.y * d.z >= 0.0 && d.x * d.y * d.z >= 0.0
  {
    var d := Diagonal(b);
    if Valid(b) {
      assert d.x * d.y >= 0.0;
      assert (d.x * d.y) * d.z >= 0.0;
    }
  }

  /** `maximum_extent`: the axis of a largest diagonal component. */
  function MaximumExtent(b: Bounds3): (axis: nat)
    ensures axis <= 2
    ensures forall k :: 0 <= k <= 2 ==> Vector.Index(Diagonal(b), axis) >= Vector.Index(Diagonal(b), k)
  {
    var d := Diagonal(b);
    if d.x > d.y then (if d.x > d.z then 0 else 2)
    else (if d.y > d.z then 1 else 2)
  }

  /** One coordinate of `offset`: divided by the extent only on a non-degenerate axis. */
  function OffsetAxis(c: real, lo: real, hi: real): (o: real)
    ensures hi > lo ==> (c == lo ==> o == 0.0) && (c == hi ==> o == 1.0) && (lo <= c <= hi ==> 0.0 <= o <= 1.0)
    ensures hi <= lo ==> o == c - lo
  {
    if hi > lo then
      assert lo <= c <= hi ==> 0.0 <= (c - lo) / (hi - lo) <= 1.0 by {
        if lo <= c <= hi {
          DivAtMostOne(c - lo, hi - lo);
        }
      }
      var w := hi - lo;
      assert c == hi ==> (c - lo) / w == 1.0 by {
        if c == hi {
          QuotientOfProduct(1.0, w);
        }
      }
      (c - lo) / w
    else c - lo
  }

  lemma QuotientOfProduct(a: real, w: real)
    requires w != 0.0
    ensures (a * w) / w == a
  {
  }

  lemma DivAtMostOne(a: real, b: real)
    requires 0.0 <= a <= b && b > 0.0
    ensures 0.0 <= a / b <= 1.0
  {
    assert a / b * b == a;
  }

  /** The scalar `T::lerp(t, a, b)`: `(1 - t) a + t b`. */
  function LerpScalar(t: real, a: real, b: real): real
  {
    (1.0 - t) * a + t * b
  }

  /** A weight in [0, 1] interpolates to a value between the two ends. */
  lemma LerpScalarBetween(t: real, lo: real, hi: real)
    requires lo <= hi && 0.0 <= t <= 1.0
    ensures lo <= LerpScalar(t, lo, hi) <= hi
  {
    var w := hi - lo;
    assert LerpScalar(t, lo, hi) == lo + t * w;
    assert 0.0 <= t * w by {
      if t > 0.0 && w > 0.0 {
        assert t * w > 0.0;
      }
    }
    assert t * w <= 1.0 * w;
  }

  /** `lerp(p)`: per axis, the point a fraction `p` of the way from `p_min` to `p_max`. */
  function Lerp(b: Bounds3, p: Point3): (r: Point3)
    ensures Valid(b) && 0.0 <= p.x <= 1.0 && 0.0 <= p.y <= 1.0 && 0.0 <= p.z <= 1.0 ==> PointInside(b, r)
  {
    var r := Point3(LerpScalar(p.x, b.pMin.x, b.pMax.x),
                    LerpScalar(p.y, b.pMin.y, b.pMax.y),
                    LerpScalar(p.z, b.pMin.z, b.pMax.z));
    if Valid(b) && 0.0 <= p.x <= 1.0 && 0.0 <= p.y <= 1.0 && 0.0 <= p.z <= 1.0 then
      LerpScalarBetween(p.x, b.pMin.x, b.pMax.x);
      LerpScalarBetween(p.y, b.pMin.y, b.pMax.y);
      LerpScalarBetween(p.z, b.pMin.z, b.pMax.z);
      r
    else
      r
  }

  /** `lerp` and `offset` are inverse on a box with positive extent on every axis. */
  lemma OffsetUndoesLerp(b: Bounds3, p: Point3)
    requires b.pMax.x > b.pMin.x && b.pMax.y > b.pMin.y && b.pMax.z > b.pMin.z
    ensures Offset(b, Lerp(b, p)) == AsVector(p)
  {
    OffsetAxisUndoesLerp(p.x, b.pMin.x, b.pMax.x);
    OffsetAxisUndoesLerp(p.y, b.pMin.y, b.pMax.y);
    OffsetAxisUndoesLerp(p.z, b.pMin.z, b.pMax.z);
  }

  lemma OffsetAxisUndoesLerp(t: real, lo: real, hi: real)
    requires hi > lo
    ensures OffsetAxis(LerpScalar(t, lo, hi), lo, hi) == t
  {
    assert LerpScalar(t, lo, hi) - lo == t * (hi - lo);
    QuotientOfProduct(t, hi - lo);
  }

  /** `offset(p)`: the position of `p` relative to the box, 0 at `p_min` and 1 at `p_max`. */
  function Offset(b: Bounds3, p: Point3): (o: Vec3)
    ensures o == Vec3(OffsetAxis(p.x, b.pMin.x, b.pMax.x),
                      OffsetAxis(p.y, b.pMin.y, b.pMax.y),
                      OffsetAxis(p.z, b.pMin.z, b.pMax.z))
    ensures PointInside(b, p) ==> 0.0 <= o.x <= 1.0 && 0.0 <= o.y <= 1.0 && 0.0 <= o.z <= 1.0
  {
    var offset := Point.Sub(p, b.pMin);
    var ox := if b.pMax.x > b.pMin.x then offset.x / (b.pMax.x - b.pMin.x) else offset.x;
    var oy := if b.pMax.y > b.pMin.y then offset.y / (b.pMax.y - b.pMin.y) else offset.y;
    var oz := if b.pMax.z > b.pMin.z then offset.z / (b.pMax.z - b.pMin.z) else offset.z;
    Vec3(ox, oy, oz)
  }

  /** `union(point)`. */
  function Union(b: Bounds3, p: Point3): (r: Bounds3)
    ensures Valid(r) && PointInside(r, p)
    ensures Valid(b) ==> Contains(r, b)
  {
    New(PMin(b.pMin, p), PMax(b.pMax, p))
  }

  /** `union_bounds(other)`. */
  function UnionBounds(b: Bounds3, other: Bounds3): (r: Bounds3)
    ensures Valid(r)
    ensures Valid(b) && Valid(other) ==> Contains(r, b) && Contains(r, other)
  {
    New(PMin(b.pMin, other.pMin), PMax(b.pMax, other.pMax))
  }

  /** `intersection(other)`: rebuilt through `new`, so it is always a well-formed box. */
  function Intersection(b: Bounds3, other: Bounds3): (r: Bounds3)
    ensures Valid(r)
    ensures Overlaps(b, other) && Valid(b) && Valid(other) ==> Contains(b, r) && Contains(other, r)
  {
    New(PMax(b.pMin, other.pMin), PMin(b.pMax, other.pMax))
  }

  predicate Overlaps(b: Bounds3, other: Bounds3)
  {
    var x := b.pMax.x >= other.pMin.x && b.pMin.x <= other.pMax.x;
    var y := b.pMax.y >= other.pMin.y && b.pMin.y <= other.pMax.y;
    var z := b.pMax.z >= other.pMin.z && b.pMin.z <= other.pMax.z;
    x && y && z
  }

  /** `expand(factor)`: both corners pushed out by `factor` on every axis, through `new`. */
  function Expand(b: Bounds3, factor: real): (r: Bounds3)
    ensures Valid(r)
    ensures Valid(b) && factor >= 0.0 ==> Contains(r, b)
  {
    var f := Vec3(factor, factor, factor);
    New(Point3Ops.SubVec(b.pMin, f), AddVec(b.pMax, f))
  }

  /** Indexing: 0 is `p_min`, 1 is `p_max`; a larger index fails the assertion. */
  function Index(b: Bounds3, i: nat): (p: Point3)
    requires i <= 1
    ensures p == if i == 0 then b.pMin else b.pMax
  {
    match i
    case 0 => b.pMin
    case _ => b.pMax
  }

  /** `corner(i)`: bit 0 of `i` picks x, bit 1 picks y and bit 2 picks z from `p_max`. */
  function Corner(b: Bounds3, i: nat): (p: Point3)
    ensures p.x == b.pMin.x || p.x == b.pMax.x
    ensures p.y == b.pMin.y || p.y == b.pMax.y
    ensures p.z == b.pMin.z || p.z == b.pMax.z
  {
    Point3(Index(b, if i % 2 == 0 then 0 else 1).x,
           Index(b, if (i / 2) % 2 == 0 then 0 else 1).y,
           Index(b, if (i / 4) % 2 == 0 then 0 else 1).z)
  }

  /** PartialEq::eq compares both corners with Point3's `eq`. */
  function Eq(a: Bounds3, b: Bounds3): (r: bool)
    ensures r <==> a == b
  {
    Point3Ops.Eq(a.pMin, b.pMin) && Point3Ops.Eq(a.pMax, b.pMax)
  }

  function Ne(a: Bounds3, b: Bounds3): (r: bool)
    ensures r <==> !Eq(a, b)
  {
    Point3Ops.Ne(a.pMin, b.pMin) || Point3Ops.Ne(a.pMax, b.pMax)
  }

  // Properties

  lemma NewIsSymmetric(p: Point3, q: Point3)
    ensures New(p, q) == New(q, p)
  {
  }

  lemma OverlapsIsSymmetric(a: Bounds3, b: Bounds3)
    ensures Overlaps(a, b) == Overlaps(b, a)
  {
  }

  lemma CornersAreInside(b: Bounds3, i: nat)
    requires Valid(b)
    ensures PointInside(b, Corner(b, i))
  {
  }

  lemma CornerExtremes(b: Bounds3)
    ensures Corner(b, 0) == b.pMin
    ensures Corner(b, 7) == b.pMax
  {
  }

  /** The offset of `p_min` is zero, and that of `p_max` is 1 on every non-degenerate axis. */
  lemma OffsetOfCorners(b: Bounds3)
    ensures Offset(b, b.pMin) == Zero()
    ensures var o := Offset(b, b.pMax);
      (b.pMax.x > b.pMin.x ==> o.x == 1.0) &&
      (b.pMax.y > b.pMin.y ==> o.y == 1.0) &&
      (b.pMax.z > b.pMin.z ==> o.z == 1.0)
  {
  }

  /** Disjoint boxes do not give an empty intersection: `new` swaps the crossed corners. */
  lemma IntersectionOfDisjointBoxes()
    ensures var a := Bounds3(Point3(0.0, 0.0, 0.0), Point3(1.0, 1.0, 1.0));
      var b := Bounds3(Point3(2.0, 0.0, 0.0), Point3(3.0, 1.0, 1.0));
      !Overlaps(a, b) && Intersection(a, b) == Bounds3(Point3(1.0, 0.0, 0.0), Point3(2.0, 1.0, 1.0))
  {
  }
}

/**
 * The axis-aligned rectangle of src/geometry/bounds2.rs. Its `ne` goes through Point2's
 * `ne` and so compares the first corner's x with the other corner's y.
 */
module Bounds2 {
  import opened Vector
  import opened Point
  import V2 = Vector2
  import Point2Ops
  import B3 = Bounds3

  datatype Bounds2 = Bounds2(pMin: Point2, pMax: Point2)

  predicate Valid(b: Bounds2)
  {
    b.pMin.x <= b.pMax.x && b.pMin.y <= b.pMax.y
  }

  /** `new(p1, p2)`: the smallest rectangle holding both points. */
  function New(p1: Point2, p2: Point2): (b: Bounds2)
    ensures Valid(b)
    ensures b.pMin.x <= p1.x <= b.pMax.x && b.pMin.y <= p1.y <= b.pMax.y
    ensures b.pMin.x <= p2.x <= b.pMax.x && b.pMin.y <= p2.y <= b.pMax.y
    ensures (b.pMin.x == p1.x || b.pMin.x == p2.x) && (b.pMax.x == p1.x || b.pMax.x == p2.x)
    ensures (b.pMin.y == p1.y || b.pMin.y == p2.y) && (b.pMax.y == p1.y || b.pMax.y == p2.y)
  {
    Bounds2(Point2(Min(p1.x, p2.x), Min(p1.y, p2.y)), Point2(Max(p1.x, p2.x), Max(p1.y, p2.y)))
  }

  /** `diagonal`: `p_max - p_min`. */
  function Diagonal(b: Bounds2): (d: V2.Vec2)
    ensures Point2Ops.AddVec(b.pMin, d) == b.pMax
    ensures Valid(b) ==> d.x >= 0.0 && d.y >= 0.0
  {
    Point2Ops.Sub(b.pMax, b.pMin)
  }

  /** `maximum_extent`: 0 exactly when the x extent is strictly the larger. */
  function MaximumExtent(b: Bounds2): (axis: nat)
    ensures axis == 0 <==> Diagonal(b).x > Diagonal(b).y
    ensures axis == 0 || axis == 1
  {
    var d := Diagonal(b);
    if d.x > d.y then 0 else 1
  }

  function Area(b: Bounds2): (a: real)
    ensures Valid(b) ==> a >= 0.0
  {
    var d := Diagonal(b);
    assert Valid(b) ==> d.x * d.y >= 0.0;
    d.x * d.y
  }

  /** `lerp(p)`: per axis, the point a fraction `p` of the way from `p_min` to `p_max`. */
  function Lerp(b: Bounds2, p: Point2): (r: Point2)
    ensures Valid(b) && 0.0 <= p.x <= 1.0 && 0.0 <= p.y <= 1.0 ==>
      b.pMin.x <= r.x <= b.pMax.x && b.pMin.y <= r.y <= b.pMax.y
  {
    var r := Point2(B3.LerpScalar(p.x, b.pMin.x, b.pMax.x), B3.LerpScalar(p.y, b.pMin.y, b.pMax.y));
    if Valid(b) && 0.0 <= p.x <= 1.0 && 0.0 <= p.y <= 1.0 then
      B3.LerpScalarBetween(p.x, b.pMin.x, b.pMax.x);
      B3.LerpScalarBetween(p.y, b.pMin.y, b.pMax.y);
      r
    else
      r
  }

  /** `lerp` and `offset` are inverse on a rectangle with positive extent on both axes. */
  lemma OffsetUndoesLerp(b: Bounds2, p: Point2)
    requires b.pMax.x > b.pMin.x && b.pMax.y > b.pMin.y
    ensures Offset(b, Lerp(b, p)) == V2.Vec2(p.x, p.y)
  {
    var l := Lerp(b, p);
    assert Offset(b, l) == V2.Vec2(B3.OffsetAxis(l.x, b.pMin.x, b.pMax.x), B3.OffsetAxis(l.y, b.pMin.y, b.pMax.y));
    B3.OffsetAxisUndoesLerp(p.x, b.pMin.x, b.pMax.x);
    B3.OffsetAxisUndoesLerp(p.y, b.pMin.y, b.pMax.y);
  }

  /** `offset(p)`: each axis is divided by its extent only when that extent is positive. */
  function Offset(b: Bounds2, p: Point2): (o: V2.Vec2)
    ensures b.pMax.x > b.pMin.x ==> o.x * (b.pMax.x - b.pMin.x) == p.x - b.pMin.x
    ensures b.pMax.x <= b.pMin.x ==> o.x == p.x - b.pMin.x
    ensures b.pMax.y > b.pMin.y ==> o.y * (b.pMax.y - b.pMin.y) == p.y - b.pMin.y
    ensures b.pMax.y <= b.pMin.y ==> o.y == p.y - b.pMin.y
  {
    var offset := Point2Ops.Sub(p, b.pMin);
    var ox := if b.pMax.x > b.pMin.x then offset.x / (b.pMax.x - b.pMin.x) else offset.x;
    var oy := if b.pMax.y > b.pMin.y then offset.y / (b.pMax.y - b.pMin.y) else offset.y;
    V2.Vec2(ox, oy)
  }

  /** PartialEq::eq through Point2's componentwise `eq`. */
  function Eq(a: Bounds2, b: Bounds2): (r: bool)
    ensures r <==> a == b
  {
    Point2Ops.Eq(a.pMin, b.pMin) && Point2Ops.Eq(a.pMax, b.pMax)
  }

  /** PartialEq::ne through Point2's `ne`. */
  function Ne(a: Bounds2, b: Bounds2): bool
  {
    Point2Ops.Ne(a.pMin, b.pMin) || Point2Ops.Ne(a.pMax, b.pMax)
  }

  // Properties

  lemma OffsetOfMin(b: Bounds2)
    ensures Offset(b, b.pMin) == V2.Vec2(0.0, 0.0)
  {
  }

  /** A rectangle is `ne` to itself as soon as one corner has different x and y. */
  lemma NeOfSelf(b: Bounds2)
    ensures Eq(b, b)
    ensures Ne(b, b) <==> b.pMin.x != b.pMin.y || b.pMax.x != b.pMax.y
  {
    Point2Ops.NeOfSelf(b.pMin);
    Point2Ops.NeOfSelf(b.pMax);
  }
}

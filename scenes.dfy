/** The scene-building helper of src/scenes.rs that splits a quadrilateral into triangles. */
module ScenePresets {
  import opened Vector
  import Triangles

  /**
   * `triangulate_square`: exactly four corners give the fan (p0, p1, p2), (p0, p2, p3),
   * two triangles that share the diagonal p0–p2.
   */
  function TriangulateSquare(points: seq<Vec3>, sqrt: real -> real): (r: seq<Triangles.Triangle>)
    requires |points| == 4
    ensures |r| == 2
    ensures r[0].p0 == points[0] && r[0].p1 == points[1] && r[0].p2 == points[2]
    ensures r[1].p0 == points[0] && r[1].p1 == points[2] && r[1].p2 == points[3]
    ensures forall i :: 0 <= i < 2 ==> Triangles.WellFormed(r[i]) && r[i].material.None?
  {
    [Triangles.New(points[0], points[1], points[2], sqrt),
     Triangles.New(points[0], points[2], points[3], sqrt)]
  }

  /** The vertices of a triangle, as a multiset. */
  function Corners(tri: Triangles.Triangle): multiset<Vec3>
  {
    multiset{tri.p0, tri.p1, tri.p2}
  }

  /**
   * Every corner is used: together the two triangles hold the diagonal ends twice and
   * the other two corners once each.
   */
  lemma SquareCoversCorners(points: seq<Vec3>, sqrt: real -> real)
    requires |points| == 4
    ensures var r := TriangulateSquare(points, sqrt);
      Corners(r[0]) + Corners(r[1]) == multiset(points) + multiset{points[0], points[2]}
  {
    var r := TriangulateSquare(points, sqrt);
    assert points == [points[0], points[1], points[2], points[3]];
    assert multiset(points) == multiset{points[0], points[1], points[2], points[3]};
  }
}

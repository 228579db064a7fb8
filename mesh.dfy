/**
 * Meshes of src/objects/mesh.rs: a list of triangles moved to the mesh's centre and
 * given the mesh's material.
 */
module Meshes {
  import opened Wrappers
  import opened Vector
  import P = Point
  import opened Materials
  import Triangles

  datatype Mesh = Mesh(center: P.Point3, material: Material, triangles: seq<Triangles.Triangle>)

  /** Every triangle of the mesh carries the mesh's material. */
  predicate Valid(m: Mesh)
  {
    forall i :: 0 <= i < |m.triangles| ==> m.triangles[i].material == Some(m.material)
  }

  /**
   * `Mesh::new`: each triangle is translated by the offset of `center` from the origin and
   * then gets `material`; count and order are kept.
   */
  function New(center: P.Point3, triangles: seq<Triangles.Triangle>, material: Material, sqrt: real -> real): (m: Mesh)
    ensures m.center == center && m.material == material
    ensures |m.triangles| == |triangles|
    ensures forall i :: 0 <= i < |triangles| ==>
      m.triangles[i].p0 == Add(triangles[i].p0, P.AsVector(center)) &&
      m.triangles[i].p1 == Add(triangles[i].p1, P.AsVector(center)) &&
      m.triangles[i].p2 == Add(triangles[i].p2, P.AsVector(center))
    ensures forall i :: 0 <= i < |triangles| && Triangles.WellFormed(triangles[i]) ==>
      m.triangles[i].edge10 == triangles[i].edge10 && m.triangles[i].edge20 == triangles[i].edge20
    ensures Valid(m)
  {
    var offset := P.Sub(center, P.Default());
    assert offset == P.AsVector(center);
    Mesh(center, material, seq(|triangles|, i requires 0 <= i < |triangles| =>
      Triangles.SetMaterial(Triangles.Translate(triangles[i], offset, sqrt), material)))
  }

  /** `get_triangles`: the stored triangles in order; in a built mesh each has a material. */
  function GetTriangles(m: Mesh): (r: seq<Triangles.Triangle>)
    ensures |r| == |m.triangles|
    ensures Valid(m) ==> forall i :: 0 <= i < |r| ==> r[i].material.Some?
  {
    m.triangles
  }
}

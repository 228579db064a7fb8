/**
 * The scene of src/scene.rs: primitives filed as objects or lights, an optional BVH, and
 * the closest-hit searches that write into a caller's hit record.
 */
module Scenes {
  import opened Wrappers
  import opened Vector
  import opened Rays
  import BV = BoundingVolumes
  import Triangles
  import Spheres
  import Meshes
  import opened Primitives
  import Bvh

  // Classification into objects and lights.

  /** Every primitive has a material, as the `unwrap` in `add` demands. */
  predicate HasMaterials(ps: seq<Primitive>)
  {
    forall i :: 0 <= i < |ps| ==> GetMaterial(ps[i]).Some?
  }

  /** Whether `add` files a primitive as a light. */
  predicate IsLight(p: Primitive)
    requires GetMaterial(p).Some?
  {
    GetMaterial(p).value.countsAsLight
  }

  /** The lights among `ps`, in order. */
  function LightsOf(ps: seq<Primitive>): (r: seq<Primitive>)
    requires HasMaterials(ps)
    ensures |r| <= |ps|
    decreases |ps|
  {
    if |ps| == 0 then []
    else LightsOf(ps[..|ps| - 1]) + (if IsLight(ps[|ps| - 1]) then [ps[|ps| - 1]] else [])
  }

  /** The primitives of `ps` that are not lights, in order. */
  function ObjectsOf(ps: seq<Primitive>): (r: seq<Primitive>)
    requires HasMaterials(ps)
    ensures |r| <= |ps|
    decreases |ps|
  {
    if |ps| == 0 then []
    else ObjectsOf(ps[..|ps| - 1]) + (if IsLight(ps[|ps| - 1]) then [] else [ps[|ps| - 1]])
  }

  /** The triangles of a mesh as primitives. */
  function Tris(ts: seq<Triangles.Triangle>): (r: seq<Primitive>)
    ensures |r| == |ts| && forall i :: 0 <= i < |ts| ==> r[i] == Tri(ts[i])
  {
    seq(|ts|, i requires 0 <= i < |ts| => Tri(ts[i]))
  }

  // The closest-so-far search.

  /** The state of a closest-hit search: the current far end of the window and the best hit. */
  datatype Closest = Closest(bound: real, found: Option<HitData>)

  /** One step of the loop: a reported hit becomes the best and shrinks the window to its `t`. */
  function Step(c: Closest, reported: Option<HitData>): Closest
  {
    match reported
    case None => c
    case Some(h) => Closest(h.t, Some(h))
  }

  /**
   * What the loop of `intersect_objects` leaves after visiting `ps` in order, each with
   * the window shrunk to the closest hit so far.
   */
  function Scan(ps: seq<Primitive>, ray: Ray, tMin: real, tMax: real, sqrt: real -> real): (r: Closest)
    ensures r.bound <= tMax
    ensures r.found.None? ==> r.bound == tMax
    ensures r.found.Some? ==> r.found.value.t == r.bound && tMin <= r.bound
    decreases |ps|
  {
    if |ps| == 0 then Closest(tMax, None)
    else
      var c := Scan(ps[..|ps| - 1], ray, tMin, tMax, sqrt);
      Step(c, Hit(ps[|ps| - 1], ray, tMin, c.bound, sqrt))
  }

  /**
   * What `intersect_bvh` reports for a node: nothing when the box test fails, the search
   * over the children of a leaf, the search over the sub-volumes of an inner node.
   */
  function NodeHit(n: Bvh.Node, ray: Ray, tMin: real, tMax: real, sqrt: real -> real): (r: Option<HitData>)
    ensures !BV.SlabsOverlap(n.bounds, ray, tMin, tMax) ==> r.None?
    ensures r.Some? ==> tMin <= r.value.t <= tMax
    decreases n
  {
    if !BV.SlabsOverlap(n.bounds, ray, tMin, tMax) then None
    else if n.isInner then NodeScan(n.subVolumes, ray, tMin, tMax, sqrt).found
    else Scan(n.children, ray, tMin, tMax, sqrt).found
  }

  /** The closest-so-far loop of `intersect_bvh` over sub-volumes. */
  function NodeScan(ns: seq<Bvh.Node>, ray: Ray, tMin: real, tMax: real, sqrt: real -> real): (r: Closest)
    ensures r.bound <= tMax
    ensures r.found.None? ==> r.bound == tMax
    ensures r.found.Some? ==> r.found.value.t == r.bound && tMin <= r.bound
    decreases ns
  {
    if |ns| == 0 then Closest(tMax, None)
    else
      var c := NodeScan(ns[..|ns| - 1], ray, tMin, tMax, sqrt);
      Step(c, NodeHit(ns[|ns| - 1], ray, tMin, c.bound, sqrt))
  }

  /** Visiting one more primitive is one more step of the search. */
  lemma ScanSnoc(ps: seq<Primitive>, p: Primitive, ray: Ray, tMin: real, tMax: real, sqrt: real -> real)
    ensures Scan(ps + [p], ray, tMin, tMax, sqrt) ==
      Step(Scan(ps, ray, tMin, tMax, sqrt), Hit(p, ray, tMin, Scan(ps, ray, tMin, tMax, sqrt).bound, sqrt))
  {
    assert (ps + [p])[..|ps|] == ps;
  }

  /** `ScanSnoc` for the `i`-th primitive of a list scanned after `seen`. */
  lemma ScanNext(seen: seq<Primitive>, ps: seq<Primitive>, i: nat, ray: Ray, tMin: real, tMax: real, sqrt: real -> real)
    requires i < |ps|
    ensures Scan(seen + ps[..i + 1], ray, tMin, tMax, sqrt) ==
      Step(Scan(seen + ps[..i], ray, tMin, tMax, sqrt), Hit(ps[i], ray, tMin, Scan(seen + ps[..i], ray, tMin, tMax, sqrt).bound, sqrt))
  {
    assert seen + ps[..i + 1] == (seen + ps[..i]) + [ps[i]] by {
      assert ps[..i + 1] == ps[..i] + [ps[i]];
    }
    ScanSnoc(seen + ps[..i], ps[i], ray, tMin, tMax, sqrt);
  }

  /** Classifying one more primitive appends it to the lights or to the objects. */
  lemma ClassifyNext(ps: seq<Primitive>, i: nat)
    requires HasMaterials(ps) && i < |ps|
    ensures HasMaterials(ps[..i]) && HasMaterials(ps[..i + 1])
    ensures IsLight(ps[i]) ==> LightsOf(ps[..i + 1]) == LightsOf(ps[..i]) + [ps[i]] && ObjectsOf(ps[..i + 1]) == ObjectsOf(ps[..i])
    ensures !IsLight(ps[i]) ==> LightsOf(ps[..i + 1]) == LightsOf(ps[..i]) && ObjectsOf(ps[..i + 1]) == ObjectsOf(ps[..i]) + [ps[i]]
  {
    assert ps[..i + 1][..i] == ps[..i];
    assert LightsOf(ps[..i]) + [] == LightsOf(ps[..i]);
    assert ObjectsOf(ps[..i]) + [] == ObjectsOf(ps[..i]);
  }

  /** Every primitive `LightsOf` keeps has a material that counts as a light. */
  lemma {:induction false} LightsAreLights(ps: seq<Primitive>)
    requires HasMaterials(ps)
    ensures forall i :: 0 <= i < |LightsOf(ps)| ==> GetMaterial(LightsOf(ps)[i]).Some? && IsLight(LightsOf(ps)[i])
    decreases |ps|
  {
    if |ps| > 0 {
      LightsAreLights(ps[..|ps| - 1]);
    }
  }

  /** Every primitive `ObjectsOf` keeps has a material that does not count as a light. */
  lemma {:induction false} ObjectsAreNotLights(ps: seq<Primitive>)
    requires HasMaterials(ps)
    ensures forall i :: 0 <= i < |ObjectsOf(ps)| ==> GetMaterial(ObjectsOf(ps)[i]).Some? && !IsLight(ObjectsOf(ps)[i])
    decreases |ps|
  {
    if |ps| > 0 {
      ObjectsAreNotLights(ps[..|ps| - 1]);
    }
  }

  lemma AppendAssoc(a: seq<Primitive>, b: seq<Primitive>, p: Primitive)
    ensures (a + b) + [p] == a + (b + [p])
  {
  }

  // Properties

  /** `add` loses nothing and duplicates nothing: lights and objects together are the input. */
  lemma {:induction false} ClassifyPartitions(ps: seq<Primitive>)
    requires HasMaterials(ps)
    ensures multiset(LightsOf(ps)) + multiset(ObjectsOf(ps)) == multiset(ps)
    ensures |LightsOf(ps)| + |ObjectsOf(ps)| == |ps|
    decreases |ps|
  {
    if |ps| > 0 {
      var init := ps[..|ps| - 1];
      ClassifyPartitions(init);
      assert ps == init + [ps[|ps| - 1]];
    }
  }

  /** The window of the search only shrinks: visiting more primitives never raises the bound. */
  lemma {:induction false} ScanBoundShrinks(ps: seq<Primitive>, k: nat, ray: Ray, tMin: real, tMax: real, sqrt: real -> real)
    requires k <= |ps|
    ensures Scan(ps, ray, tMin, tMax, sqrt).bound <= Scan(ps[..k], ray, tMin, tMax, sqrt).bound
    decreases |ps|
  {
    if k < |ps| {
      var init := ps[..|ps| - 1];
      assert init[..k] == ps[..k];
      ScanBoundShrinks(init, k, ray, tMin, tMax, sqrt);
    } else {
      assert ps[..k] == ps;
    }
  }

  /** Some primitive of `ps` reports a hit in the window. */
  predicate AnyHit(ps: seq<Primitive>, ray: Ray, tMin: real, tMax: real, sqrt: real -> real)
  {
    exists i :: 0 <= i < |ps| && Hit(ps[i], ray, tMin, tMax, sqrt).Some?
  }

  /** `h` is what some primitive of `ps` reports for the whole window. */
  predicate ReportedBy(h: HitData, ps: seq<Primitive>, ray: Ray, tMin: real, tMax: real, sqrt: real -> real)
  {
    exists i :: 0 <= i < |ps| && Hit(ps[i], ray, tMin, tMax, sqrt) == Some(h)
  }

  /** No primitive of `ps` reports a hit nearer than `t`. */
  predicate NoneNearer(t: real, ps: seq<Primitive>, ray: Ray, tMin: real, tMax: real, sqrt: real -> real)
  {
    forall i :: 0 <= i < |ps| && Hit(ps[i], ray, tMin, tMax, sqrt).Some? ==> t <= Hit(ps[i], ray, tMin, tMax, sqrt).value.t
  }

  /**
   * The closest-so-far loop finds the closest hit: it reports a hit exactly when some
   * primitive has one in the window, that hit is one a primitive reports on its own, and
   * no primitive has a nearer one. Spheres need a true square root for this.
   */
  lemma {:induction false} ScanIsClosest(ps: seq<Primitive>, ray: Ray, tMin: real, tMax: real, sqrt: real -> real)
    requires IsSqrt(sqrt)
    ensures Scan(ps, ray, tMin, tMax, sqrt).found.Some? <==> AnyHit(ps, ray, tMin, tMax, sqrt)
    ensures Scan(ps, ray, tMin, tMax, sqrt).found.Some? ==>
      ReportedBy(Scan(ps, ray, tMin, tMax, sqrt).found.value, ps, ray, tMin, tMax, sqrt) &&
      NoneNearer(Scan(ps, ray, tMin, tMax, sqrt).found.value.t, ps, ray, tMin, tMax, sqrt)
    decreases |ps|
  {
    if |ps| > 0 {
      var init, last := ps[..|ps| - 1], ps[|ps| - 1];
      ScanIsClosest(init, ray, tMin, tMax, sqrt);
      var c := Scan(init, ray, tMin, tMax, sqrt);
      HitNarrowing(last, ray, tMin, tMax, c.bound, sqrt);
      ScanStepIsClosest(init, last, ps, ray, tMin, tMax, sqrt);
    }
  }

  /** The inductive step of `ScanIsClosest`, for the last primitive. */
  lemma ScanStepIsClosest(init: seq<Primitive>, last: Primitive, ps: seq<Primitive>, ray: Ray, tMin: real, tMax: real, sqrt: real -> real)
    requires ps == init + [last]
    requires var c := Scan(init, ray, tMin, tMax, sqrt);
      (c.found.Some? <==> AnyHit(init, ray, tMin, tMax, sqrt)) &&
      (c.found.Some? ==> ReportedBy(c.found.value, init, ray, tMin, tMax, sqrt) && NoneNearer(c.found.value.t, init, ray, tMin, tMax, sqrt))
    requires var c := Scan(init, ray, tMin, tMax, sqrt);
      Hit(last, ray, tMin, c.bound, sqrt) ==
        (if Hit(last, ray, tMin, tMax, sqrt).Some? && Hit(last, ray, tMin, tMax, sqrt).value.t <= c.bound
         then Hit(last, ray, tMin, tMax, sqrt) else None)
    ensures Scan(ps, ray, tMin, tMax, sqrt).found.Some? <==> AnyHit(ps, ray, tMin, tMax, sqrt)
    ensures Scan(ps, ray, tMin, tMax, sqrt).found.Some? ==>
      ReportedBy(Scan(ps, ray, tMin, tMax, sqrt).found.value, ps, ray, tMin, tMax, sqrt) &&
      NoneNearer(Scan(ps, ray, tMin, tMax, sqrt).found.value.t, ps, ray, tMin, tMax, sqrt)
  {
    ScanSnoc(init, last, ray, tMin, tMax, sqrt);
    var c := Scan(init, ray, tMin, tMax, sqrt);
    var r := Scan(ps, ray, tMin, tMax, sqrt);
    var n := |init|;
    assert forall i :: 0 <= i < n ==> ps[i] == init[i];
    assert ps[n] == last;
    if AnyHit(init, ray, tMin, tMax, sqrt) {
      var j :| 0 <= j < n && Hit(init[j], ray, tMin, tMax, sqrt).Some?;
      assert Hit(ps[j], ray, tMin, tMax, sqrt).Some?;
    }
    if Hit(last, ray, tMin, tMax, sqrt).Some? {
      assert Hit(ps[n], ray, tMin, tMax, sqrt).Some?;
    }
    if r.found.Some? {
      if r.found == Hit(last, ray, tMin, tMax, sqrt) {
        assert Hit(ps[n], ray, tMin, tMax, sqrt) == r.found;
      } else {
        assert r == c;
        var j :| 0 <= j < n && Hit(init[j], ray, tMin, tMax, sqrt) == c.found;
        assert Hit(ps[j], ray, tMin, tMax, sqrt) == r.found;
      }
      assert NoneNearer(r.found.value.t, ps, ray, tMin, tMax, sqrt);
    } else {
      assert !AnyHit(init, ray, tMin, tMax, sqrt);
      assert Hit(last, ray, tMin, tMax, sqrt).None?;
    }
  }

  // The BVH traversal.

  /** `h` is what some primitive among `ps` reports for the whole window. */
  predicate FoundAmong(h: HitData, ps: seq<Primitive>, ray: Ray, tMin: real, tMax: real, sqrt: real -> real)
  {
    exists p :: p in ps && Hit(p, ray, tMin, tMax, sqrt) == Some(h)
  }

  /** The leaves below a list of nodes with one more node appended. */
  lemma {:induction false} LeavesOfSnoc(ns: seq<Bvh.Node>, n: Bvh.Node)
    ensures Bvh.LeavesOf(ns + [n]) == Bvh.LeavesOf(ns) + Bvh.Leaves(n)
    decreases |ns|
  {
    if |ns| == 0 {
      assert [n][1..] == [];
    } else {
      assert (ns + [n])[0] == ns[0];
      assert (ns + [n])[1..] == ns[1..] + [n];
      LeavesOfSnoc(ns[1..], n);
    }
  }

  /**
   * The traversal is sound: whatever `intersect_bvh` reports for a node is the hit some
   * primitive in a leaf below it reports for the same window.
   */
  lemma {:induction false} NodeHitIsLeafHit(n: Bvh.Node, ray: Ray, tMin: real, tMax: real, sqrt: real -> real)
    requires IsSqrt(sqrt)
    ensures NodeHit(n, ray, tMin, tMax, sqrt).Some? ==>
      FoundAmong(NodeHit(n, ray, tMin, tMax, sqrt).value, Bvh.Leaves(n), ray, tMin, tMax, sqrt)
    decreases n
  {
    if BV.SlabsOverlap(n.bounds, ray, tMin, tMax) {
      if n.isInner {
        NodeScanIsLeafHit(n.subVolumes, ray, tMin, tMax, sqrt);
      } else {
        ScanIsClosest(n.children, ray, tMin, tMax, sqrt);
        var r := Scan(n.children, ray, tMin, tMax, sqrt);
        if r.found.Some? {
          var i :| 0 <= i < |n.children| && Hit(n.children[i], ray, tMin, tMax, sqrt) == r.found;
          assert n.children[i] in Bvh.Leaves(n);
        }
      }
    }
  }

  /** The loop over sub-volumes is sound in the same sense. */
  lemma {:induction false} NodeScanIsLeafHit(ns: seq<Bvh.Node>, ray: Ray, tMin: real, tMax: real, sqrt: real -> real)
    requires IsSqrt(sqrt)
    ensures NodeScan(ns, ray, tMin, tMax, sqrt).found.Some? ==>
      FoundAmong(NodeScan(ns, ray, tMin, tMax, sqrt).found.value, Bvh.LeavesOf(ns), ray, tMin, tMax, sqrt)
    decreases ns
  {
    if |ns| > 0 {
      var init, last := ns[..|ns| - 1], ns[|ns| - 1];
      assert ns == init + [last];
      LeavesOfSnoc(init, last);
      NodeScanIsLeafHit(init, ray, tMin, tMax, sqrt);
      var c := NodeScan(init, ray, tMin, tMax, sqrt);
      var r := NodeScan(ns, ray, tMin, tMax, sqrt);
      NodeHitIsLeafHit(last, ray, tMin, c.bound, sqrt);
      var h := NodeHit(last, ray, tMin, c.bound, sqrt);
      if h.Some? {
        var p :| p in Bvh.Leaves(last) && Hit(p, ray, tMin, c.bound, sqrt) == h;
        HitNarrowing(p, ray, tMin, tMax, c.bound, sqrt);
        assert p in Bvh.LeavesOf(ns);
      } else if r.found.Some? {
        var p :| p in Bvh.LeavesOf(init) && Hit(p, ray, tMin, tMax, sqrt) == r.found;
        assert p in Bvh.LeavesOf(ns);
      }
    }
  }

  /**
   * Every direction component is non-zero and its cached reciprocal exact, so the slab
   * test sees the box as it is.
   */
  predicate ExactDirection(ray: Ray)
  {
    ray.direction.x != 0.0 && ray.direction.y != 0.0 && ray.direction.z != 0.0 &&
    ray.invDirection.x * ray.direction.x == 1.0 &&
    ray.invDirection.y * ray.direction.y == 1.0 &&
    ray.invDirection.z * ray.direction.z == 1.0
  }

  /** The hit points of the primitives below each node lie inside that node's box. */
  predicate Encloses(n: Bvh.Node, ray: Ray, tMin: real, tMax: real, sqrt: real -> real)
    decreases n
  {
    (forall p :: p in Bvh.Leaves(n) && Hit(p, ray, tMin, tMax, sqrt).Some? ==>
       BV.Inside(Hit(p, ray, tMin, tMax, sqrt).value.point, n.bounds))
    && (n.isInner ==> forall k :: 0 <= k < |n.subVolumes| ==> Encloses(n.subVolumes[k], ray, tMin, tMax, sqrt))
  }

  /** A node of the list whose leaves hold `p`. */
  lemma {:induction false} LeafOwner(ns: seq<Bvh.Node>, p: Primitive) returns (k: nat)
    requires p in Bvh.LeavesOf(ns)
    ensures k < |ns| && p in Bvh.Leaves(ns[k])
    decreases |ns|
  {
    if p in Bvh.Leaves(ns[0]) {
      k := 0;
    } else {
      var j := LeafOwner(ns[1..], p);
      k := j + 1;
    }
  }

  /** The sub-volume loop never raises its bound either. */
  lemma {:induction false} NodeScanBoundShrinks(ns: seq<Bvh.Node>, k: nat, ray: Ray, tMin: real, tMax: real, sqrt: real -> real)
    requires k <= |ns|
    ensures NodeScan(ns, ray, tMin, tMax, sqrt).bound <= NodeScan(ns[..k], ray, tMin, tMax, sqrt).bound
    decreases |ns|
  {
    if k < |ns| {
      var init := ns[..|ns| - 1];
      assert init[..k] == ns[..k];
      NodeScanBoundShrinks(init, k, ray, tMin, tMax, sqrt);
    } else {
      assert ns[..k] == ns;
    }
  }

  /**
   * The traversal misses nothing nearer: when hit points lie in the boxes above them, a
   * hit strictly inside the window is found or beaten by a hit at least as near.
   */
  lemma {:induction false} NodeHitFindsEnclosed(n: Bvh.Node, ray: Ray, tMin: real, tMax: real, c: real, sqrt: real -> real, p: Primitive)
    requires IsSqrt(sqrt) && ExactDirection(ray) && Encloses(n, ray, tMin, tMax, sqrt)
    requires c <= tMax && p in Bvh.Leaves(n) && Hit(p, ray, tMin, tMax, sqrt).Some?
    requires tMin < Hit(p, ray, tMin, tMax, sqrt).value.t < c
    ensures NodeHit(n, ray, tMin, c, sqrt).Some?
    ensures NodeHit(n, ray, tMin, c, sqrt).value.t <= Hit(p, ray, tMin, tMax, sqrt).value.t
    decreases n
  {
    var h := Hit(p, ray, tMin, tMax, sqrt).value;
    HitNarrowing(p, ray, tMin, tMax, c, sqrt);
    assert BV.Inside(At(ray, h.t), n.bounds);
    BV.SlabTestIsConservative(n.bounds, ray, tMin, c, h.t);
    if n.isInner {
      NodeScanFindsEnclosed(n.subVolumes, ray, tMin, tMax, c, sqrt, p);
    } else {
      ScanIsClosest(n.children, ray, tMin, c, sqrt);
      var i :| 0 <= i < |n.children| && n.children[i] == p;
      assert Hit(n.children[i], ray, tMin, c, sqrt) == Some(h);
    }
  }

  /** The same for the loop over sub-volumes. */
  lemma {:induction false} NodeScanFindsEnclosed(ns: seq<Bvh.Node>, ray: Ray, tMin: real, tMax: real, c: real, sqrt: real -> real, p: Primitive)
    requires IsSqrt(sqrt) && ExactDirection(ray)
    requires forall k :: 0 <= k < |ns| ==> Encloses(ns[k], ray, tMin, tMax, sqrt)
    requires c <= tMax && p in Bvh.LeavesOf(ns) && Hit(p, ray, tMin, tMax, sqrt).Some?
    requires tMin < Hit(p, ray, tMin, tMax, sqrt).value.t < c
    ensures NodeScan(ns, ray, tMin, c, sqrt).found.Some?
    ensures NodeScan(ns, ray, tMin, c, sqrt).bound <= Hit(p, ray, tMin, tMax, sqrt).value.t
    decreases ns
  {
    var t := Hit(p, ray, tMin, tMax, sqrt).value.t;
    var k := LeafOwner(ns, p);
    var prefix := ns[..k + 1];
    assert prefix[..k] == ns[..k] && prefix[k] == ns[k];
    var cb := NodeScan(ns[..k], ray, tMin, c, sqrt).bound;
    if t < cb {
      NodeHitFindsEnclosed(ns[k], ray, tMin, tMax, cb, sqrt, p);
    }
    assert NodeScan(prefix, ray, tMin, c, sqrt).bound <= t;
    NodeScanBoundShrinks(ns, k + 1, ray, tMin, c, sqrt);
  }

  /**
   * A hierarchy of the shape the builders produce encloses the hit points below every
   * node as soon as each primitive's hit point lies inside its own bounding volume.
   */
  lemma {:induction false} WellBuiltEncloses(n: Bvh.Node, max: nat, ray: Ray, tMin: real, tMax: real, sqrt: real -> real)
    requires Bvh.WellBuilt(n, max)
    requires forall p :: p in Bvh.Leaves(n) && Hit(p, ray, tMin, tMax, sqrt).Some? ==>
      BV.Inside(Hit(p, ray, tMin, tMax, sqrt).value.point, BoundingVolume(p))
    ensures Encloses(n, ray, tMin, tMax, sqrt)
    decreases n
  {
    if n.isInner {
      var s0, s1 := n.subVolumes[0], n.subVolumes[1];
      assert n.subVolumes[1..] == [s1] && [s1][1..] == [];
      assert Bvh.LeavesOf([s1]) == Bvh.Leaves(s1) + Bvh.LeavesOf([]);
      assert Bvh.Leaves(n) == Bvh.Leaves(s0) + Bvh.LeavesOf([s1]);
      WellBuiltEncloses(s0, max, ray, tMin, tMax, sqrt);
      WellBuiltEncloses(s1, max, ray, tMin, tMax, sqrt);
    }
  }

  /**
   * Spheres of non-negative radius meet that condition, so over a well-built hierarchy of
   * such spheres and a unit-length ray the traversal misses no hit strictly inside the window.
   */
  lemma SpheresAreEnclosed(n: Bvh.Node, max: nat, ray: Ray, tMin: real, tMax: real, sqrt: real -> real)
    requires IsSqrt(sqrt) && LengthSquared(ray.direction) == 1.0 && Bvh.WellBuilt(n, max)
    requires forall p :: p in Bvh.Leaves(n) ==> p.Sph? && p.sphere.radius >= 0.0
    ensures Encloses(n, ray, tMin, tMax, sqrt)
  {
    forall p | p in Bvh.Leaves(n) && Hit(p, ray, tMin, tMax, sqrt).Some?
      ensures BV.Inside(Hit(p, ray, tMin, tMax, sqrt).value.point, BoundingVolume(p))
    {
      Spheres.HitInsideBox(p.sphere, ray, tMin, tMax, sqrt);
    }
    WellBuiltEncloses(n, max, ray, tMin, tMax, sqrt);
  }

  /**
   * One `for object in ...` loop of `intersect_no_bvh`, taking over the flag, the window
   * and the record left by the primitives `seen` before it.
   */
  method ContinueScan(seen: seq<Primitive>, ps: seq<Primitive>, ray: Ray, tMin: real, tMax: real, sqrt: real -> real,
                      record: HitRecord, tmp: HitRecord, hit0: bool, closest0: real)
    returns (hit: bool, closest: real)
    requires tmp != record
    requires Scan(seen, ray, tMin, tMax, sqrt) == Closest(closest0, if hit0 then Some(record.Value()) else None)
    modifies record, tmp
    ensures Scan(seen + ps, ray, tMin, tMax, sqrt) == Closest(closest, if hit then Some(record.Value()) else None)
    ensures !hit ==> !hit0 && record.Value() == old(record.Value())
  {
    hit, closest := hit0, closest0;
    assert seen + ps[..0] == seen;
    for i := 0 to |ps|
      invariant Scan(seen + ps[..i], ray, tMin, tMax, sqrt) == Closest(closest, if hit then Some(record.Value()) else None)
      invariant !hit ==> !hit0 && record.Value() == old(record.Value())
    {
      ScanNext(seen, ps, i, ray, tMin, tMax, sqrt);
      var h := Primitives.Intersect(ps[i], ray, tMin, closest, sqrt, tmp);
      if h {
        hit := true;
        closest := tmp.t;
        record.CopyFrom(tmp);
      }
    }
    assert ps[..|ps|] == ps;
  }

  class Scene {
    var objects: seq<Primitive>
    var lights: seq<Primitive>
    var bvh: Option<Bvh.Node>

    /** `Scene::new`: no primitives and no BVH. */
    constructor ()
      ensures objects == [] && lights == [] && bvh == None
    {
      objects := [];
      lights := [];
      bvh := None;
    }

    /** `add`: each mesh triangle goes to the lights or the objects by its material. */
    method Add(mesh: Meshes.Mesh)
      requires HasMaterials(Tris(mesh.triangles))
      modifies this
      ensures lights == old(lights) + LightsOf(Tris(mesh.triangles))
      ensures objects == old(objects) + ObjectsOf(Tris(mesh.triangles))
      ensures bvh == old(bvh)
    {
      var triangles := Meshes.GetTriangles(mesh);
      ghost var ps := Tris(triangles);
      for i := 0 to |triangles|
        invariant HasMaterials(ps[..i])
        invariant lights == old(lights) + LightsOf(ps[..i])
        invariant objects == old(objects) + ObjectsOf(ps[..i])
        invariant bvh == old(bvh)
      {
        ClassifyNext(ps, i);
        assert ps[i] == Tri(triangles[i]);
        var isLight := Triangles.GetMaterial(triangles[i]).value.countsAsLight;
        if isLight {
          AppendAssoc(old(lights), LightsOf(ps[..i]), ps[i]);
          lights := lights + [Tri(triangles[i])];
        } else {
          AppendAssoc(old(objects), ObjectsOf(ps[..i]), ps[i]);
          objects := objects + [Tri(triangles[i])];
        }
      }
      assert ps[..|triangles|] == ps;
    }

    /** `add_generic`: the same classification for one primitive. */
    method AddGeneric(p: Primitive)
      requires GetMaterial(p).Some?
      modifies this
      ensures IsLight(p) ==> lights == old(lights) + [p] && objects == old(objects)
      ensures !IsLight(p) ==> objects == old(objects) + [p] && lights == old(lights)
      ensures bvh == old(bvh)
    {
      var isLight := GetMaterial(p).value.countsAsLight;
      if isLight {
        lights := lights + [p];
      } else {
        objects := objects + [p];
      }
    }

    /** `all_elements`: the lights, then the objects. */
    function AllElements(): (r: seq<Primitive>)
      reads this
      ensures |r| == |lights| + |objects|
      ensures forall i :: 0 <= i < |lights| ==> r[i] == lights[i]
      ensures forall j :: 0 <= j < |objects| ==> r[|lights| + j] == objects[j]
    {
      lights + objects
    }

    /** `use_bvh` replaces the BVH and nothing else. */
    method UseBvh(b: Option<Bvh.Node>)
      modifies this
      ensures bvh == b && objects == old(objects) && lights == old(lights)
    {
      bvh := b;
    }

    /** What `intersect` reports: brute force without a BVH, traversal with one. */
    function SceneHit(ray: Ray, tMin: real, tMax: real, sqrt: real -> real): (r: Option<HitData>)
      reads this
      ensures bvh.None? ==> r == Scan(objects + lights, ray, tMin, tMax, sqrt).found
      ensures bvh.Some? ==> r == NodeHit(bvh.value, ray, tMin, tMax, sqrt)
    {
      match bvh
      case None => Scan(objects + lights, ray, tMin, tMax, sqrt).found
      case Some(root) => NodeHit(root, ray, tMin, tMax, sqrt)
    }

    /** `intersect_objects`: the closest-so-far loop over `ps`. */
    method IntersectObjects(ray: Ray, tMin: real, tMax: real, record: HitRecord, ps: seq<Primitive>, sqrt: real -> real)
      returns (hit: bool)
      modifies record
      ensures hit <==> Scan(ps, ray, tMin, tMax, sqrt).found.Some?
      ensures hit ==> record.Value() == Scan(ps, ray, tMin, tMax, sqrt).found.value
      ensures !hit ==> record.Value() == old(record.Value())
    {
      var tmp := new HitRecord();
      hit := false;
      var closest := tMax;
      for i := 0 to |ps|
        invariant tmp != record
        invariant Scan(ps[..i], ray, tMin, tMax, sqrt).bound == closest
        invariant hit <==> Scan(ps[..i], ray, tMin, tMax, sqrt).found.Some?
        invariant hit ==> record.Value() == Scan(ps[..i], ray, tMin, tMax, sqrt).found.value
        invariant !hit ==> record.Value() == old(record.Value())
      {
        assert ps[..i + 1][..i] == ps[..i];
        var h := Primitives.Intersect(ps[i], ray, tMin, closest, sqrt, tmp);
        if h {
          hit := true;
          closest := tmp.t;
          record.CopyFrom(tmp);
        }
      }
      assert ps[..|ps|] == ps;
    }

    /** `intersect_no_bvh`: the same loop over the objects and then, continuing, the lights. */
    method IntersectNoBvh(ray: Ray, tMin: real, tMax: real, record: HitRecord, sqrt: real -> real)
      returns (hit: bool)
      modifies record
      ensures hit <==> Scan(objects + lights, ray, tMin, tMax, sqrt).found.Some?
      ensures hit ==> record.Value() == Scan(objects + lights, ray, tMin, tMax, sqrt).found.value
      ensures !hit ==> record.Value() == old(record.Value())
    {
      var tmp := new HitRecord();
      var closest;
      hit, closest := ContinueScan([], objects, ray, tMin, tMax, sqrt, record, tmp, false, tMax);
      assert [] + objects == objects;
      hit, closest := ContinueScan(objects, lights, ray, tMin, tMax, sqrt, record, tmp, hit, closest);
    }

    /**
     * `intersect_bvh`: a failed box test reports a miss, a leaf searches its children and
     * an inner node searches its sub-volumes, each with the window shrunk so far.
     */
    method IntersectBvh(ray: Ray, tMin: real, tMax: real, record: HitRecord, node: Bvh.Node, sqrt: real -> real)
      returns (hit: bool)
      modifies record
      ensures hit <==> NodeHit(node, ray, tMin, tMax, sqrt).Some?
      ensures hit ==> record.Value() == NodeHit(node, ray, tMin, tMax, sqrt).value
      ensures !hit ==> record.Value() == old(record.Value())
      decreases node
    {
      var rootHit := BV.IntersectMod(node.bounds, ray, tMin, tMax);
      if !rootHit {
        return false;
      }
      if !node.isInner {
        hit := IntersectObjects(ray, tMin, tMax, record, node.children, sqrt);
        return;
      }
      var tmp := new HitRecord();
      hit := false;
      var closest := tMax;
      for i := 0 to |node.subVolumes|
        invariant tmp != record
        invariant NodeScan(node.subVolumes[..i], ray, tMin, tMax, sqrt).bound == closest
        invariant hit <==> NodeScan(node.subVolumes[..i], ray, tMin, tMax, sqrt).found.Some?
        invariant hit ==> record.Value() == NodeScan(node.subVolumes[..i], ray, tMin, tMax, sqrt).found.value
        invariant !hit ==> record.Value() == old(record.Value())
      {
        assert node.subVolumes[..i + 1][..i] == node.subVolumes[..i];
        var h := IntersectBvh(ray, tMin, closest, tmp, node.subVolumes[i], sqrt);
        if h {
          hit := true;
          closest := tmp.t;
          record.CopyFrom(tmp);
        }
      }
      assert node.subVolumes[..|node.subVolumes|] == node.subVolumes;
    }

    /** `intersect`: brute force when there is no BVH, traversal of the BVH otherwise. */
    method Intersect(ray: Ray, tMin: real, tMax: real, record: HitRecord, sqrt: real -> real)
      returns (hit: bool)
      modifies record
      ensures hit <==> SceneHit(ray, tMin, tMax, sqrt).Some?
      ensures hit ==> record.Value() == SceneHit(ray, tMin, tMax, sqrt).value
      ensures !hit ==> record.Value() == old(record.Value())
    {
      if bvh.None? {
        hit := IntersectNoBvh(ray, tMin, tMax, record, sqrt);
      } else {
        hit := IntersectBvh(ray, tMin, tMax, record, bvh.value, sqrt);
      }
    }
  }

  /** `RTXContext`: the generator state, which the integrator advances, and the scene it renders. */
  class Context<R> {
    var rng: R
    const scene: Scene

    constructor (rng: R, scene: Scene)
      ensures this.rng == rng && this.scene == scene
    {
      this.rng := rng;
      this.scene := scene;
    }
  }
}

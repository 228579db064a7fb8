/**
 * The bounding volume hierarchy of src/bvh.rs: nodes, and the two recursive builders
 * (spatial median and object median) over elements paired with their boxes.
 */
module Bvh {
  import opened Vector
  import P = Point
  import BV = BoundingVolumes
  import opened Primitives

  /** An element with its bounding volume (`IVolPair`). */
  datatype Pair = Pair(element: Primitive, volume: BV.BoundingVolume)

  /** `BVHNode`: an inner node holds sub-volumes, a leaf holds elements. */
  datatype Node = Node(isInner: bool, subVolumes: seq<Node>, children: seq<Primitive>, bounds: BV.BoundingVolume)

  /** What a builder call does: return a node, panic, or recurse without end. */
  datatype Build = Built(node: Node) | Panics | Diverges

  function NewInner(left: Node, right: Node, bounds: BV.BoundingVolume): (n: Node)
    ensures n.isInner && n.subVolumes == [left, right] && n.children == [] && n.bounds == bounds
  {
    Node(true, [left, right], [], bounds)
  }

  function NewLeaf(children: seq<Primitive>, bounds: BV.BoundingVolume): (n: Node)
    ensures !n.isInner && n.subVolumes == [] && n.children == children && n.bounds == bounds
  {
    Node(false, [], children, bounds)
  }

  function Elements(pairs: seq<Pair>): (r: seq<Primitive>)
    ensures |r| == |pairs| && forall i :: 0 <= i < |pairs| ==> r[i] == pairs[i].element
  {
    seq(|pairs|, i requires 0 <= i < |pairs| => pairs[i].element)
  }

  function Volumes(pairs: seq<Pair>): (r: seq<BV.BoundingVolume>)
    ensures |r| == |pairs| && forall i :: 0 <= i < |pairs| ==> r[i] == pairs[i].volume
  {
    seq(|pairs|, i requires 0 <= i < |pairs| => pairs[i].volume)
  }

  /** The coordinate of an element's position (`get_position()[axis]`) on one axis. */
  function Key(x: Pair, axis: nat): real
    requires axis <= 2
  {
    P.Index(Position(x.element), axis)
  }

  // Spatial median

  /**
   * The axis `generate_bvh_node_spatial_median` splits: x when its extent is strictly the
   * largest, else y when strictly larger than both others, else z.
   */
  function SpatialAxis(sizes: Vec3): (axis: nat)
    ensures axis <= 2
    ensures axis == 0 <==> sizes.x > sizes.y && sizes.x > sizes.z
    ensures axis == 1 <==> !(sizes.x > sizes.y && sizes.x > sizes.z) && sizes.y > sizes.x && sizes.y > sizes.z
  {
    if sizes.x > sizes.y && sizes.x > sizes.z then 0
    else if sizes.y > sizes.x && sizes.y > sizes.z then 1
    else 2
  }

  /**
   * The two filters of the spatial split in one pass: keys at or below `split` go left,
   * the rest right, each side in input order.
   */
  function Partition(pairs: seq<Pair>, axis: nat, split: real): (r: (seq<Pair>, seq<Pair>))
    requires axis <= 2
    ensures multiset(r.0) + multiset(r.1) == multiset(pairs)
    ensures |r.0| + |r.1| == |pairs|
    ensures forall x :: x in r.0 ==> Key(x, axis) <= split
    ensures forall x :: x in r.1 ==> Key(x, axis) > split
    ensures |r.1| == 0 ==> r.0 == pairs
    ensures |r.0| == 0 ==> r.1 == pairs
  {
    if |pairs| == 0 then ([], [])
    else
      var rest := Partition(pairs[1..], axis, split);
      assert pairs == [pairs[0]] + pairs[1..];
      if Key(pairs[0], axis) <= split then ([pairs[0]] + rest.0, rest.1)
      else (rest.0, [pairs[0]] + rest.1)
  }

  /**
   * The split of `generate_bvh_node_spatial_median`: at the middle of the union box
   * along the axis `SpatialAxis` picks from its extents.
   */
  function SpatialSplit(pairs: seq<Pair>): (r: (seq<Pair>, seq<Pair>))
    requires |pairs| > 0
    ensures multiset(r.0) + multiset(r.1) == multiset(pairs) && |r.0| + |r.1| == |pairs|
    ensures |r.1| == 0 ==> r.0 == pairs
  {
    var bounds := BV.From(Volumes(pairs));
    var sizes := P.Sub(bounds.max, bounds.min);
    var axis := SpatialAxis(sizes);
    var split := Index(sizes, axis) / 2.0 + P.Index(bounds.min, axis);
    Partition(pairs, axis, split)
  }

  /**
   * `generate_bvh_node_spatial_median`. An empty list panics in `from`; a list that
   * stays whole on the left side is handed to the same call again, without end.
   */
  function SpatialMedian(pairs: seq<Pair>, max: nat): (r: Build)
    ensures |pairs| == 0 ==> r == Panics
    ensures r.Built? && |pairs| <= max ==> r.node == NewLeaf(Elements(pairs), BV.From(Volumes(pairs)))
    ensures r.Built? && |pairs| > max ==> r.node.isInner && r.node.bounds == BV.From(Volumes(pairs))
    decreases |pairs|
  {
    if |pairs| == 0 then Panics
    else
      var bounds := BV.From(Volumes(pairs));
      if |pairs| <= max then Built(NewLeaf(Elements(pairs), bounds))
      else
        var sides := SpatialSplit(pairs);
        if |sides.1| == 0 then Diverges
        else
          match SpatialMedian(sides.0, max)
          case Panics => Panics
          case Diverges => Diverges
          case Built(left) =>
            match SpatialMedian(sides.1, max)
            case Panics => Panics
            case Diverges => Diverges
            case Built(right) => Built(NewInner(left, right, bounds))
  }

  // Object median

  /** Inserts `x` in front of the first element with a key not below its own. */
  function Insert(x: Pair, sorted: seq<Pair>, axis: nat): (r: seq<Pair>)
    requires axis <= 2
    ensures multiset(r) == multiset(sorted) + multiset{x}
    ensures |r| == |sorted| + 1 && (r[0] == x || (|sorted| > 0 && r[0] == sorted[0]))
  {
    if |sorted| == 0 || Key(x, axis) <= Key(sorted[0], axis) then [x] + sorted
    else
      var rest := Insert(x, sorted[1..], axis);
      assert sorted == [sorted[0]] + sorted[1..];
      [sorted[0]] + rest
  }

  predicate SortedBy(s: seq<Pair>, axis: nat)
    requires axis <= 2
  {
    forall i, j :: 0 <= i < j < |s| ==> Key(s[i], axis) <= Key(s[j], axis)
  }

  /** The `sort_by` of `split_by_axis`: a stable sort on the axis coordinate. */
  function SortByAxis(pairs: seq<Pair>, axis: nat): (r: seq<Pair>)
    requires axis <= 2
    ensures multiset(r) == multiset(pairs) && SortedBy(r, axis)
  {
    if |pairs| == 0 then []
    else
      assert pairs == [pairs[0]] + pairs[1..];
      var rest := SortByAxis(pairs[1..], axis);
      InsertKeepsSorted(pairs[0], rest, axis);
      Insert(pairs[0], rest, axis)
  }

  lemma {:induction false} InsertKeepsSorted(x: Pair, sorted: seq<Pair>, axis: nat)
    requires axis <= 2 && SortedBy(sorted, axis)
    ensures SortedBy(Insert(x, sorted, axis), axis)
  {
    if |sorted| == 0 || Key(x, axis) <= Key(sorted[0], axis) {
    } else {
      var rest := Insert(x, sorted[1..], axis);
      InsertKeepsSorted(x, sorted[1..], axis);
      assert Insert(x, sorted, axis) == [sorted[0]] + rest;
      forall j | 0 <= j < |rest|
        ensures Key(sorted[0], axis) <= Key(rest[j], axis)
      {
        assert rest[j] in multiset(rest);
        assert rest[j] in multiset(sorted[1..]) + multiset{x};
        if rest[j] != x {
          assert rest[j] in sorted[1..];
        }
      }
    }
  }

  /** `split_by_axis`: the sorted list cut after its first `len / 2` elements. */
  function SplitByAxis(pairs: seq<Pair>, axis: nat): (r: (seq<Pair>, seq<Pair>))
    requires axis < 3
    ensures |r.0| == |pairs| / 2 && |r.1| == |pairs| - |pairs| / 2
    ensures multiset(r.0) + multiset(r.1) == multiset(pairs)
    ensures forall x, y :: x in r.0 && y in r.1 ==> Key(x, axis) <= Key(y, axis)
  {
    var sorted := SortByAxis(pairs, axis);
    var n := |pairs| / 2;
    assert sorted == sorted[..n] + sorted[n..];
    (sorted[..n], sorted[n..])
  }

  /** `|1 - |a| / |b||`, the imbalance of a split with a non-empty right side. */
  function Ratio(split: (seq<Pair>, seq<Pair>)): real
    requires |split.1| > 0
  {
    var q := 1.0 - (|split.0| as real) / (|split.1| as real);
    if q < 0.0 then -q else q
  }

  /**
   * The split the object-median loop settles on: axis 0 first, then each axis in
   * `from .. to`, replacing the best only on a strictly smaller ratio.
   */
  function BestSplitFrom(pairs: seq<Pair>, from: nat, to: nat, best: (seq<Pair>, seq<Pair>)): (r: (seq<Pair>, seq<Pair>))
    requires |pairs| > 0 && to <= 3 && |best.1| > 0
    ensures |r.1| > 0
    decreases (to as int) - (from as int)
  {
    if from >= to then best
    else
      var candidate := SplitByAxis(pairs, from);
      BestSplitFrom(pairs, from + 1, to, if Ratio(candidate) < Ratio(best) then candidate else best)
  }

  /** The split `generate_bvh_node_object_median` recurses on: its loop runs `for i in 1..2`. */
  function BestSplit(pairs: seq<Pair>): (r: (seq<Pair>, seq<Pair>))
    requires |pairs| > 0
  {
    BestSplitFrom(pairs, 1, 2, SplitByAxis(pairs, 0))
  }

  /** The loop of `generate_bvh_node_object_median` that picks the split. */
  method ChooseSplit(pairs: seq<Pair>) returns (best: (seq<Pair>, seq<Pair>))
    requires |pairs| > 0
    ensures best == BestSplit(pairs)
    ensures best == SplitByAxis(pairs, 0)
  {
    best := SplitByAxis(pairs, 0);
    var bestRatio := Ratio(best);
    for i := 1 to 2
      invariant best == SplitByAxis(pairs, 0) && bestRatio == Ratio(best)
      invariant BestSplitFrom(pairs, i, 2, best) == BestSplit(pairs)
    {
      var candidate := SplitByAxis(pairs, i);
      var ratio := Ratio(candidate);
      SplitRatioDependsOnCount(pairs, 0, i);
      if ratio < bestRatio {
        bestRatio := ratio;
        best := candidate;
      }
    }
  }

  /** `generate_bvh_node_object_median`. */
  function ObjectMedian(pairs: seq<Pair>, max: nat): (r: Build)
    ensures |pairs| == 0 ==> r == Panics
    ensures r.Built? && |pairs| <= max ==> r.node == NewLeaf(Elements(pairs), BV.From(Volumes(pairs)))
    ensures r.Built? && |pairs| > max ==> r.node.isInner && r.node.bounds == BV.From(Volumes(pairs))
    decreases |pairs|
  {
    if |pairs| == 0 then Panics
    else
      var bounds := BV.From(Volumes(pairs));
      if |pairs| <= max then Built(NewLeaf(Elements(pairs), bounds))
      else
        var best := BestSplit(pairs);
        BestSplitIsAxisZero(pairs);
        match ObjectMedian(best.0, max)
        case Panics => Panics
        case Diverges => Diverges
        case Built(left) =>
          match ObjectMedian(best.1, max)
          case Panics => Panics
          case Diverges => Diverges
          case Built(right) => Built(NewInner(left, right, bounds))
  }

  /**
   * `generate_bvh` over the scene's elements (lights, then objects), each paired with its
   * bounding volume: the object median with at most 3 elements per leaf, or the spatial
   * median with at most 19.
   */
  function GenerateBvh(elements: seq<Primitive>, useObjectMedian: bool): (r: Build)
    ensures |elements| == 0 ==> r == Panics
  {
    var pairs := PairsOf(elements);
    if useObjectMedian then ObjectMedian(pairs, 3) else SpatialMedian(pairs, 19)
  }

  /** Each element with its own bounding volume. */
  function PairsOf(elements: seq<Primitive>): (pairs: seq<Pair>)
    ensures |pairs| == |elements| && Elements(pairs) == elements
    ensures forall i :: 0 <= i < |pairs| ==> pairs[i] == Pair(elements[i], BoundingVolume(elements[i]))
    ensures Consistent(pairs)
  {
    seq(|elements|, i requires 0 <= i < |elements| => Pair(elements[i], BoundingVolume(elements[i])))
  }

  /** Every pair carries its element's own bounding volume. */
  predicate Consistent(pairs: seq<Pair>)
  {
    forall x :: x in pairs ==> x.volume == BoundingVolume(x.element)
  }

  // The shape of a built hierarchy

  /** The elements of every leaf below `n`, left to right. */
  function Leaves(n: Node): seq<Primitive>
    decreases n
  {
    if n.isInner then LeavesOf(n.subVolumes) else n.children
  }

  function LeavesOf(ns: seq<Node>): seq<Primitive>
    decreases ns
  {
    if |ns| == 0 then [] else Leaves(ns[0]) + LeavesOf(ns[1..])
  }

  /** Box `a` lies within box `b`. */
  predicate Within(a: BV.BoundingVolume, b: BV.BoundingVolume)
  {
    BV.Below(b.min, a.min) && BV.Below(a.max, b.max)
  }

  /**
   * What the builders produce: inner nodes with two sub-volumes whose boxes lie within
   * their parent's, and leaves of one to `max` elements whose boxes lie within the leaf's.
   */
  predicate WellBuilt(n: Node, max: nat)
    decreases n
  {
    if n.isInner then
      |n.subVolumes| == 2 && n.children == [] &&
      Within(n.subVolumes[0].bounds, n.bounds) && Within(n.subVolumes[1].bounds, n.bounds) &&
      WellBuilt(n.subVolumes[0], max) && WellBuilt(n.subVolumes[1], max)
    else
      n.subVolumes == [] && 0 < |n.children| <= max &&
      forall c :: c in n.children ==> Within(BoundingVolume(c), n.bounds)
  }

  /**
   * `b` is the union of the boxes of `cs`: it holds every one of them, and each of its six
   * bounding coordinates is the coordinate of one of them.
   */
  predicate UnionOf(b: BV.BoundingVolume, cs: seq<Primitive>)
  {
    (forall c :: c in cs ==> Within(BoundingVolume(c), b)) &&
    (exists c :: c in cs && BoundingVolume(c).min.x == b.min.x) &&
    (exists c :: c in cs && BoundingVolume(c).min.y == b.min.y) &&
    (exists c :: c in cs && BoundingVolume(c).min.z == b.min.z) &&
    (exists c :: c in cs && BoundingVolume(c).max.x == b.max.x) &&
    (exists c :: c in cs && BoundingVolume(c).max.y == b.max.y) &&
    (exists c :: c in cs && BoundingVolume(c).max.z == b.max.z)
  }

  /** At every node, the node's box is exactly the union of the boxes of the elements below it. */
  predicate Tight(n: Node)
    decreases n
  {
    UnionOf(n.bounds, Leaves(n)) &&
    (n.isInner ==> forall k :: 0 <= k < |n.subVolumes| ==> Tight(n.subVolumes[k]))
  }

  // Properties

  /** Every axis splits at the same count, so every split has the same ratio. */
  lemma SplitRatioDependsOnCount(pairs: seq<Pair>, a: nat, b: nat)
    requires |pairs| > 0 && a < 3 && b < 3
    ensures Ratio(SplitByAxis(pairs, a)) == Ratio(SplitByAxis(pairs, b))
  {
  }

  /** Built from a non-empty scene with the object median, the hierarchy always exists. */
  lemma GenerateBvhObjectMedianBuilds(elements: seq<Primitive>)
    requires |elements| > 0
    ensures GenerateBvh(elements, true).Built?
  {
    ObjectMedianBuilds(PairsOf(elements), 3);
  }

  /** The object median always recurses on the x-axis split: the loop never replaces it. */
  lemma BestSplitIsAxisZero(pairs: seq<Pair>)
    requires |pairs| > 0
    ensures BestSplit(pairs) == SplitByAxis(pairs, 0)
  {
    SplitRatioDependsOnCount(pairs, 0, 1);
  }

  /** With at least one element per leaf allowed, the object median always builds a tree. */
  lemma {:induction false} ObjectMedianBuilds(pairs: seq<Pair>, max: nat)
    requires |pairs| > 0 && max >= 1
    ensures ObjectMedian(pairs, max).Built?
    decreases |pairs|
  {
    if |pairs| > max {
      var best := BestSplit(pairs);
      BestSplitIsAxisZero(pairs);
      ObjectMedianBuilds(best.0, max);
      ObjectMedianBuilds(best.1, max);
    }
  }

  /** Every spatial-median tree that is built is well formed. */
  lemma {:induction false} SpatialMedianWellBuilt(pairs: seq<Pair>, max: nat)
    requires Consistent(pairs) && SpatialMedian(pairs, max).Built?
    ensures WellBuilt(SpatialMedian(pairs, max).node, max)
    decreases |pairs|
  {
    if |pairs| <= max {
      LeafWellBuilt(pairs, max);
    } else {
      var sides := SpatialSplit(pairs);
      var left, right := SpatialMedian(sides.0, max), SpatialMedian(sides.1, max);
      SpatialMedianStep(pairs, max);
      SubConsistent(sides.0, pairs);
      SubConsistent(sides.1, pairs);
      SpatialMedianWellBuilt(sides.0, max);
      SpatialMedianWellBuilt(sides.1, max);
      InnerWellBuilt(pairs, sides.0, sides.1, left.node, right.node, max);
    }
  }

  /** Every spatial-median tree that is built holds each input element exactly once. */
  lemma {:induction false} SpatialMedianLeaves(pairs: seq<Pair>, max: nat)
    requires SpatialMedian(pairs, max).Built?
    ensures multiset(Leaves(SpatialMedian(pairs, max).node)) == multiset(Elements(pairs))
    decreases |pairs|
  {
    if |pairs| > max {
      var sides := SpatialSplit(pairs);
      var left, right := SpatialMedian(sides.0, max), SpatialMedian(sides.1, max);
      SpatialMedianStep(pairs, max);
      SpatialMedianLeaves(sides.0, max);
      SpatialMedianLeaves(sides.1, max);
      InnerLeaves(pairs, sides.0, sides.1, left.node, right.node, BV.From(Volumes(pairs)));
    }
  }

  /** The same for the object median: its trees are well formed. */
  lemma {:induction false} ObjectMedianWellBuilt(pairs: seq<Pair>, max: nat)
    requires Consistent(pairs) && ObjectMedian(pairs, max).Built?
    ensures WellBuilt(ObjectMedian(pairs, max).node, max)
    decreases |pairs|
  {
    if |pairs| <= max {
      LeafWellBuilt(pairs, max);
    } else {
      var best := SplitByAxis(pairs, 0);
      var left, right := ObjectMedian(best.0, max), ObjectMedian(best.1, max);
      ObjectMedianStep(pairs, max);
      SubConsistent(best.0, pairs);
      SubConsistent(best.1, pairs);
      ObjectMedianWellBuilt(best.0, max);
      ObjectMedianWellBuilt(best.1, max);
      InnerWellBuilt(pairs, best.0, best.1, left.node, right.node, max);
    }
  }

  /** The object median's trees hold each input element exactly once. */
  lemma {:induction false} ObjectMedianLeaves(pairs: seq<Pair>, max: nat)
    requires ObjectMedian(pairs, max).Built?
    ensures multiset(Leaves(ObjectMedian(pairs, max).node)) == multiset(Elements(pairs))
    decreases |pairs|
  {
    if |pairs| > max {
      var best := SplitByAxis(pairs, 0);
      var left, right := ObjectMedian(best.0, max), ObjectMedian(best.1, max);
      ObjectMedianStep(pairs, max);
      ObjectMedianLeaves(best.0, max);
      ObjectMedianLeaves(best.1, max);
      InnerLeaves(pairs, best.0, best.1, left.node, right.node, BV.From(Volumes(pairs)));
    }
  }

  /** At every node of a built spatial-median tree, the box is the union of the boxes below it. */
  lemma {:induction false} SpatialMedianTight(pairs: seq<Pair>, max: nat)
    requires Consistent(pairs) && SpatialMedian(pairs, max).Built?
    ensures Tight(SpatialMedian(pairs, max).node)
    decreases |pairs|
  {
    var n := SpatialMedian(pairs, max).node;
    SpatialMedianLeaves(pairs, max);
    if |pairs| <= max {
      FromIsUnion(pairs, Leaves(n));
    } else {
      var sides := SpatialSplit(pairs);
      SpatialMedianStep(pairs, max);
      FromIsUnion(pairs, Leaves(n));
      SubConsistent(sides.0, pairs);
      SubConsistent(sides.1, pairs);
      SpatialMedianTight(sides.0, max);
      SpatialMedianTight(sides.1, max);
      InnerTight(SpatialMedian(sides.0, max).node, SpatialMedian(sides.1, max).node, n.bounds);
    }
  }

  /**
   * Whatever `generate_bvh` builds is tight at every node and holds each scene element
   * exactly once.
   */
  lemma GenerateBvhTight(elements: seq<Primitive>, useObjectMedian: bool)
    requires GenerateBvh(elements, useObjectMedian).Built?
    ensures Tight(GenerateBvh(elements, useObjectMedian).node)
    ensures multiset(Leaves(GenerateBvh(elements, useObjectMedian).node)) == multiset(elements)
  {
    var pairs := PairsOf(elements);
    if useObjectMedian {
      ObjectMedianTight(pairs, 3);
      ObjectMedianLeaves(pairs, 3);
    } else {
      SpatialMedianTight(pairs, 19);
      SpatialMedianLeaves(pairs, 19);
    }
  }

  /** At every node of an object-median tree, the box is the union of the boxes below it. */
  lemma {:induction false} ObjectMedianTight(pairs: seq<Pair>, max: nat)
    requires Consistent(pairs) && ObjectMedian(pairs, max).Built?
    ensures Tight(ObjectMedian(pairs, max).node)
    decreases |pairs|
  {
    var n := ObjectMedian(pairs, max).node;
    ObjectMedianLeaves(pairs, max);
    if |pairs| <= max {
      FromIsUnion(pairs, Leaves(n));
    } else {
      var best := SplitByAxis(pairs, 0);
      ObjectMedianStep(pairs, max);
      FromIsUnion(pairs, Leaves(n));
      SubConsistent(best.0, pairs);
      SubConsistent(best.1, pairs);
      ObjectMedianTight(best.0, max);
      ObjectMedianTight(best.1, max);
      InnerTight(ObjectMedian(best.0, max).node, ObjectMedian(best.1, max).node, n.bounds);
    }
  }

  /** An inner node is tight when its own box is the union below it and both sides are tight. */
  lemma InnerTight(left: Node, right: Node, bounds: BV.BoundingVolume)
    requires UnionOf(bounds, Leaves(NewInner(left, right, bounds))) && Tight(left) && Tight(right)
    ensures Tight(NewInner(left, right, bounds))
  {
    var n := NewInner(left, right, bounds);
    forall k | 0 <= k < |n.subVolumes|
      ensures Tight(n.subVolumes[k])
    {
      assert n.subVolumes[k] == if k == 0 then left else right;
    }
  }

  /**
   * `BoundingVolume::from` over a consistent list is the union of the boxes of any
   * rearrangement of its elements.
   */
  lemma FromIsUnion(pairs: seq<Pair>, cs: seq<Primitive>)
    requires Consistent(pairs) && |pairs| > 0 && multiset(cs) == multiset(Elements(pairs))
    ensures UnionOf(BV.From(Volumes(pairs)), cs)
  {
    FromHoldsAll(pairs, cs);
    FromMinAttained(pairs, cs);
    FromMaxAttained(pairs, cs);
  }

  lemma FromHoldsAll(pairs: seq<Pair>, cs: seq<Primitive>)
    requires Consistent(pairs) && |pairs| > 0 && multiset(cs) == multiset(Elements(pairs))
    ensures forall c :: c in cs ==> Within(BoundingVolume(c), BV.From(Volumes(pairs)))
  {
    forall c | c in cs
      ensures Within(BoundingVolume(c), BV.From(Volumes(pairs)))
    {
      assert c in multiset(Elements(pairs));
      var i :| 0 <= i < |pairs| && Elements(pairs)[i] == c;
      PairIn(pairs, cs, i);
    }
  }

  lemma FromMinAttained(pairs: seq<Pair>, cs: seq<Primitive>)
    requires Consistent(pairs) && |pairs| > 0 && multiset(cs) == multiset(Elements(pairs))
    ensures exists c :: c in cs && BoundingVolume(c).min.x == BV.From(Volumes(pairs)).min.x
    ensures exists c :: c in cs && BoundingVolume(c).min.y == BV.From(Volumes(pairs)).min.y
    ensures exists c :: c in cs && BoundingVolume(c).min.z == BV.From(Volumes(pairs)).min.z
  {
    var b := BV.From(Volumes(pairs));
    var i0 :| 0 <= i0 < |pairs| && b.min.x == Volumes(pairs)[i0].min.x;
    PairIn(pairs, cs, i0);
    var i1 :| 0 <= i1 < |pairs| && b.min.y == Volumes(pairs)[i1].min.y;
    PairIn(pairs, cs, i1);
    var i2 :| 0 <= i2 < |pairs| && b.min.z == Volumes(pairs)[i2].min.z;
    PairIn(pairs, cs, i2);
  }

  lemma FromMaxAttained(pairs: seq<Pair>, cs: seq<Primitive>)
    requires Consistent(pairs) && |pairs| > 0 && multiset(cs) == multiset(Elements(pairs))
    ensures exists c :: c in cs && BoundingVolume(c).max.x == BV.From(Volumes(pairs)).max.x
    ensures exists c :: c in cs && BoundingVolume(c).max.y == BV.From(Volumes(pairs)).max.y
    ensures exists c :: c in cs && BoundingVolume(c).max.z == BV.From(Volumes(pairs)).max.z
  {
    var b := BV.From(Volumes(pairs));
    var i3 :| 0 <= i3 < |pairs| && b.max.x == Volumes(pairs)[i3].max.x;
    PairIn(pairs, cs, i3);
    var i4 :| 0 <= i4 < |pairs| && b.max.y == Volumes(pairs)[i4].max.y;
    PairIn(pairs, cs, i4);
    var i5 :| 0 <= i5 < |pairs| && b.max.z == Volumes(pairs)[i5].max.z;
    PairIn(pairs, cs, i5);
  }

  /** The element of pair `i` is among `cs`, and its box is the pair's volume. */
  lemma PairIn(pairs: seq<Pair>, cs: seq<Primitive>, i: nat)
    requires Consistent(pairs) && i < |pairs| && multiset(cs) == multiset(Elements(pairs))
    ensures pairs[i].element in cs && BoundingVolume(pairs[i].element) == Volumes(pairs)[i]
  {
    assert pairs[i] in pairs;
    assert Elements(pairs)[i] in multiset(Elements(pairs));
  }

  /** One inner step of the spatial median: both sides are non-empty and built. */
  lemma SpatialMedianStep(pairs: seq<Pair>, max: nat)
    requires |pairs| > max && SpatialMedian(pairs, max).Built?
    ensures var sides := SpatialSplit(pairs);
      |sides.0| > 0 && |sides.1| > 0 && multiset(sides.0) + multiset(sides.1) == multiset(pairs) &&
      SpatialMedian(sides.0, max).Built? && SpatialMedian(sides.1, max).Built? &&
      SpatialMedian(pairs, max).node
        == NewInner(SpatialMedian(sides.0, max).node, SpatialMedian(sides.1, max).node, BV.From(Volumes(pairs)))
  {
  }

  /** One inner step of the object median, on the split of axis 0 that it always picks. */
  lemma ObjectMedianStep(pairs: seq<Pair>, max: nat)
    requires |pairs| > max && ObjectMedian(pairs, max).Built?
    ensures var best := SplitByAxis(pairs, 0);
      |best.0| > 0 && |best.1| > 0 && multiset(best.0) + multiset(best.1) == multiset(pairs) &&
      ObjectMedian(best.0, max).Built? && ObjectMedian(best.1, max).Built? &&
      ObjectMedian(pairs, max).node
        == NewInner(ObjectMedian(best.0, max).node, ObjectMedian(best.1, max).node, BV.From(Volumes(pairs)))
  {
    BestSplitIsAxisZero(pairs);
  }

  lemma SubConsistent(a: seq<Pair>, pairs: seq<Pair>)
    requires Consistent(pairs) && multiset(a) <= multiset(pairs)
    ensures Consistent(a)
  {
    forall x | x in a
      ensures x.volume == BoundingVolume(x.element)
    {
      assert x in multiset(pairs);
    }
  }

  /** A leaf over a non-empty list of at most `max` pairs. */
  lemma LeafWellBuilt(pairs: seq<Pair>, max: nat)
    requires Consistent(pairs) && 0 < |pairs| <= max
    ensures WellBuilt(NewLeaf(Elements(pairs), BV.From(Volumes(pairs))), max)
    ensures multiset(Leaves(NewLeaf(Elements(pairs), BV.From(Volumes(pairs))))) == multiset(Elements(pairs))
  {
    var bounds := BV.From(Volumes(pairs));
    forall c | c in Elements(pairs)
      ensures Within(BoundingVolume(c), bounds)
    {
      var i :| 0 <= i < |pairs| && Elements(pairs)[i] == c;
      assert pairs[i] in pairs;
      assert Volumes(pairs)[i] == BoundingVolume(c);
    }
  }

  /** An inner node over a split of `pairs` whose two sides were built well. */
  lemma InnerWellBuilt(pairs: seq<Pair>, a: seq<Pair>, b: seq<Pair>, left: Node, right: Node, max: nat)
    requires |a| > 0 && |b| > 0 && multiset(a) + multiset(b) == multiset(pairs)
    requires left.bounds == BV.From(Volumes(a)) && right.bounds == BV.From(Volumes(b))
    requires WellBuilt(left, max) && WellBuilt(right, max)
    ensures WellBuilt(NewInner(left, right, BV.From(Volumes(pairs))), max)
  {
    FromOfSublist(a, pairs);
    FromOfSublist(b, pairs);
  }

  /** An inner node over a split of `pairs` holds the elements its two sides hold. */
  lemma InnerLeaves(pairs: seq<Pair>, a: seq<Pair>, b: seq<Pair>, left: Node, right: Node, bounds: BV.BoundingVolume)
    requires multiset(a) + multiset(b) == multiset(pairs)
    requires multiset(Leaves(left)) == multiset(Elements(a)) && multiset(Leaves(right)) == multiset(Elements(b))
    ensures multiset(Leaves(NewInner(left, right, bounds))) == multiset(Elements(pairs))
  {
    var n := NewInner(left, right, bounds);
    assert LeavesOf(n.subVolumes) == Leaves(left) + LeavesOf([right]);
    assert LeavesOf([right]) == Leaves(right) + LeavesOf([]);
    ElementsOfSplit(a, b, pairs);
  }

  /** The union of a sub-list's boxes lies within the union of the whole list's. */
  lemma FromOfSublist(a: seq<Pair>, pairs: seq<Pair>)
    requires |a| > 0 && multiset(a) <= multiset(pairs)
    ensures |pairs| > 0 && Within(BV.From(Volumes(a)), BV.From(Volumes(pairs)))
  {
    assert a[0] in multiset(pairs);
    var whole, part := BV.From(Volumes(pairs)), BV.From(Volumes(a));
    forall i | 0 <= i < |a|
      ensures Within(Volumes(a)[i], whole)
    {
      assert a[i] in multiset(pairs);
      var j :| 0 <= j < |pairs| && pairs[j] == a[i];
      assert Volumes(pairs)[j] == Volumes(a)[i];
    }
  }

  /** Splitting a list splits its elements the same way. */
  lemma ElementsOfSplit(a: seq<Pair>, b: seq<Pair>, pairs: seq<Pair>)
    requires multiset(a) + multiset(b) == multiset(pairs)
    ensures multiset(Elements(a)) + multiset(Elements(b)) == multiset(Elements(pairs))
  {
    assert Elements(a + b) == Elements(a) + Elements(b);
    ElementsOfPermutation(a + b, pairs);
  }

  /** Permuting the pairs permutes their elements. */
  lemma {:induction false} ElementsOfPermutation(a: seq<Pair>, c: seq<Pair>)
    requires multiset(a) == multiset(c)
    ensures multiset(Elements(a)) == multiset(Elements(c))
    decreases |a|
  {
    if |a| == 0 {
      assert |multiset(c)| == 0;
    } else {
      var j := Occurrence(c, a[0]);
      RemaindersAgree(a, c, j);
      ElementsOfPermutation(a[1..], c[..j] + c[j + 1..]);
      ElementsRemoveAt(c, j);
      ElementsFront(a);
    }
  }

  /** The elements of a non-empty list: the first one and those of the rest. */
  lemma ElementsFront(a: seq<Pair>)
    requires |a| > 0
    ensures multiset(Elements(a)) == multiset(Elements(a[1..])) + multiset{a[0].element}
  {
    assert Elements(a) == [a[0].element] + Elements(a[1..]);
  }

  /** A position holding a value the multiset contains. */
  lemma Occurrence(c: seq<Pair>, x: Pair) returns (j: nat)
    requires x in multiset(c)
    ensures j < |c| && c[j] == x
  {
    j :| 0 <= j < |c| && c[j] == x;
  }

  /** Removing the same value from two permutations of each other leaves permutations. */
  lemma RemaindersAgree(a: seq<Pair>, c: seq<Pair>, j: nat)
    requires multiset(a) == multiset(c) && |a| > 0 && j < |c| && c[j] == a[0]
    ensures multiset(a[1..]) == multiset(c[..j] + c[j + 1..])
  {
    RemoveAt(c, j);
    assert a == [a[0]] + a[1..];
  }

  /** Removing one position removes one occurrence. */
  lemma RemoveAt(c: seq<Pair>, j: nat)
    requires j < |c|
    ensures multiset(c[..j] + c[j + 1..]) == multiset(c) - multiset{c[j]}
  {
    assert c == c[..j] + [c[j]] + c[j + 1..];
  }

  /** The same for the elements. */
  lemma ElementsRemoveAt(c: seq<Pair>, j: nat)
    requires j < |c|
    ensures multiset(Elements(c)) == multiset(Elements(c[..j] + c[j + 1..])) + multiset{c[j].element}
  {
    assert Elements(c) == Elements(c[..j]) + [c[j].element] + Elements(c[j + 1..]);
    assert Elements(c[..j] + c[j + 1..]) == Elements(c[..j]) + Elements(c[j + 1..]);
  }

  /** The union of copies of one box is that box. */
  lemma {:induction false} FoldOfCopies(b: BV.BoundingVolume, volumes: seq<BV.BoundingVolume>)
    requires forall i :: 0 <= i < |volumes| ==> volumes[i] == b
    ensures BV.FoldUnion(b.min, b.max, volumes) == b
    decreases |volumes|
  {
    if |volumes| > 0 {
      assert P.PMin(b.min, b.min) == b.min && P.PMax(b.max, b.max) == b.max;
      FoldOfCopies(b, volumes[1..]);
    }
  }

  /** A list of copies of one pair all at or below the split stays whole on the left. */
  lemma PartitionOfCopies(pairs: seq<Pair>, x: Pair, axis: nat, split: real)
    requires axis <= 2 && Key(x, axis) <= split
    requires forall i :: 0 <= i < |pairs| ==> pairs[i] == x
    ensures Partition(pairs, axis, split).1 == []
  {
  }

  /**
   * The element's position lies at or below the middle of its own box on the axis the
   * spatial median would split that box along.
   */
  predicate AtOrBelowMiddle(x: Pair)
  {
    var sizes := P.Sub(x.volume.max, x.volume.min);
    var axis := SpatialAxis(sizes);
    Key(x, axis) <= Index(sizes, axis) / 2.0 + P.Index(x.volume.min, axis)
  }

  /** A sphere sits exactly in the middle of its own box. */
  lemma SphereAtMiddle(s: Spheres.Sphere)
    ensures AtOrBelowMiddle(Pair(Sph(s), BoundingVolume(Sph(s))))
  {
    var b := Spheres.BoundingVolume(s);
    var sizes := P.Sub(b.max, b.min);
    var axis := SpatialAxis(sizes);
    assert P.Index(Position(Sph(s)), axis) == Index(sizes, axis) / 2.0 + P.Index(b.min, axis);
  }

  /**
   * A degenerate spatial split: more than 19 copies of one element at or below the
   * middle of its box (copies of one sphere, say) all fall on the left of the split, so
   * `generate_bvh` without the object median recurses on the same list without end (the
   * process overflows its stack).
   */
  lemma StackedElementsDiverge(elements: seq<Primitive>, e: Primitive)
    requires |elements| > 19 && forall i :: 0 <= i < |elements| ==> elements[i] == e
    requires AtOrBelowMiddle(Pair(e, BoundingVolume(e)))
    ensures GenerateBvh(elements, false) == Diverges
  {
    PairsOfCopies(elements, e);
    StackedPairsDiverge(PairsOf(elements), Pair(e, BoundingVolume(e)), 19);
  }

  /** More than 19 copies of one sphere make the spatial-median build recurse without end. */
  lemma StackedSpheresDiverge(elements: seq<Primitive>, s: Spheres.Sphere)
    requires |elements| > 19 && forall i :: 0 <= i < |elements| ==> elements[i] == Sph(s)
    ensures GenerateBvh(elements, false) == Diverges
  {
    SphereAtMiddle(s);
    StackedElementsDiverge(elements, Sph(s));
  }

  /** The same on the pairs: more than `max` copies of such a pair recurse without end. */
  lemma StackedPairsDiverge(pairs: seq<Pair>, x: Pair, max: nat)
    requires |pairs| > max && forall i :: 0 <= i < |pairs| ==> pairs[i] == x
    requires AtOrBelowMiddle(x)
    ensures SpatialMedian(pairs, max) == Diverges
  {
    CopiesSplitWhole(pairs, x);
    SpatialMedianDivergesOnWholeSplit(pairs, max);
  }

  /** The pairs of a list of copies are copies of one pair. */
  lemma PairsOfCopies(elements: seq<Primitive>, e: Primitive)
    requires forall i :: 0 <= i < |elements| ==> elements[i] == e
    ensures forall i :: 0 <= i < |PairsOf(elements)| ==> PairsOf(elements)[i] == Pair(e, BoundingVolume(e))
  {
    var pairs := PairsOf(elements);
    forall i | 0 <= i < |pairs|
      ensures pairs[i] == Pair(e, BoundingVolume(e))
    {
      assert elements[i] == e;
    }
  }

  /** A list longer than `max` whose split leaves the right side empty recurses without end. */
  lemma SpatialMedianDivergesOnWholeSplit(pairs: seq<Pair>, max: nat)
    requires |pairs| > max && SpatialSplit(pairs).1 == []
    ensures SpatialMedian(pairs, max) == Diverges
  {
  }

  /** Copies of one pair at or below the middle of its box all stay on the left. */
  lemma CopiesSplitWhole(pairs: seq<Pair>, x: Pair)
    requires |pairs| > 0 && forall i :: 0 <= i < |pairs| ==> pairs[i] == x
    requires AtOrBelowMiddle(x)
    ensures SpatialSplit(pairs).1 == []
  {
    UnionOfCopies(pairs, x);
    var sizes := P.Sub(x.volume.max, x.volume.min);
    var axis := SpatialAxis(sizes);
    var split := Index(sizes, axis) / 2.0 + P.Index(x.volume.min, axis);
    PartitionOfCopies(pairs, x, axis, split);
    assert SpatialSplit(pairs) == Partition(pairs, axis, split);
  }

  /** The union of the boxes of copies of one pair is that pair's box. */
  lemma UnionOfCopies(pairs: seq<Pair>, x: Pair)
    requires |pairs| > 0 && forall i :: 0 <= i < |pairs| ==> pairs[i] == x
    ensures BV.From(Volumes(pairs)) == x.volume
  {
    var volumes := Volumes(pairs);
    forall i | 0 <= i < |volumes|
      ensures volumes[i] == x.volume
    {
      assert volumes[i] == pairs[i].volume;
    }
    FoldOfCopies(x.volume, volumes);
  }
}

# pathtracing core in Dafny

A Dafny model of the core of `pathtracing`, a small physically based ray tracer written in
Rust. The model covers the parts that decide what a ray hits and what ends up in the output
file:

- the geometric value types: vectors, points, normals, 2-D vectors and points, and boxes;
- rays and hit records;
- triangles (Möller–Trumbore intersection) and spheres (quadratic intersection);
- the bounding-volume hierarchy: its box test and both builders, spatial median and object
  median;
- the scene: classifying primitives into lights and objects, brute-force closest-hit search,
  and BVH traversal;
- the depth-bounded integrator `ray_color_weekend`;
- the binary STL loader and the mesh it builds;
- the MT19937 generator exactly as the crate writes it;
- the dense matrix type;
- coefficient spectra and luminance;
- colour quantisation and the PPM writers.

Modelling conventions:

- `f32` arithmetic is modelled on Dafny's `real`. Rounding, NaN and infinities are not
  modelled (see "Left out").
- The square root is a function parameter `sqrt: real -> real`. Properties that need a true
  square root require `IsSqrt(sqrt)`.
- Decoding four little-endian bytes into an `f32` is a parameter `f32: seq<byte> -> real`.
- Random draws are passed in as numbers in [0, 1].
- A material's `scatter` is a function parameter that also threads the generator state.
- The crate has two `Vector3` types, `geometry/vector.rs` and `geometry/vector3.rs`. The model
  has a single `Vector.Vec3`, which follows `geometry/vector.rs`.
- Operators that update in place (`+=`, `-=`, `*=`, `/=`, `set_face_normal`, `copy_from`, …)
  are methods on small classes: `Vec3Var`, `Point3Var`, `HitRecord`, `Spectrum`,
  `Mt19937Prng`, `Scene`, and others.
  - Each such method is proved against the pure function that gives the new value.
  - Loops become `while`/`for` loops with invariants. Examples: the MT state array, the matrix
    product, the STL reader, the closest-hit loops and the spectrum operators.
- The source's oddities are modelled as written, and lemmas exhibit them. Examples:
  - `max_elementwise` takes y from `b.z`;
  - `Vector2`, `Point2` and `Normal3` compare the wrong components in `eq`/`ne`;
  - the MT generator leaves its last word at 0;
  - the spatial-median builder can recurse without end (the process overflows its stack);
  - a matrix sum swaps its shape;
  - the matrix-to-vector conversion always fails.
- The one error whose intended behaviour is evident from the crate's own test is listed under
  "## Findings".

## Model

| member | source | states |
|---|---|---|
| Vector.Min | src/geometry/vector.rs:99-104 | the float `min` used elementwise is a lower bound of both arguments and equals one of them |
| Vector.Max | src/geometry/vector.rs:106-111 | the float `max` is an upper bound of both arguments and equals one of them |
| Vector.LengthSquaredNonNegative | src/geometry/vector.rs:44-46 | the squared length is never negative |
| Vector.Decompose | src/geometry/vector.rs:59-65 | three vectors, each zero off its own axis, that sum back to the input |
| Vector.Index | src/geometry/vector.rs:305-315 | index 0, 1, 2 selects x, y, z; an index above 2 is outside the precondition (the source asserts) |
| Vector.Column | src/geometry/vector.rs:71-73 | a three-entry column whose entry i is component i |
| Vector.HexDigits | src/geometry/vector.rs:140-159 | an unsigned parse of one hex digit lies in 0..15, of two digits in 0..255 |
| Vector.HexField | src/geometry/vector.rs:149-151 | a channel field parsed with `unwrap_or(0)` stays within the digit-count range when unsigned |
| Vector.ClampScalar | src/geometry/vector.rs:113-117 | the result lies in [min, max], values inside are kept, values below give min, values above give max |
| Vector.Vec3Var.constructor | src/geometry/vector.rs:36-42 | the variable holds the given components |
| Vector.Vec3Var.Clamp | src/geometry/vector.rs:113-117 | every component is replaced by its clamp into [min, max] |
| Vector.Vec3Var.AddAssign | src/geometry/vector.rs:196-200 | `+=` leaves the sum of the old value and the right-hand side |
| Vector.Vec3Var.SubAssign | src/geometry/vector.rs:219-223 | `-=` leaves the difference |
| Vector.Vec3Var.MulAssign | src/geometry/vector.rs:271-275 | `*=` leaves the scaled vector |
| Vector.Vec3Var.DivAssign | src/geometry/vector.rs:287-291 | `/=` by a non-zero scalar leaves the quotient |
| Vector.DotSelfIsLengthSquared | src/geometry/vector.rs:44-50 | the dot product of a vector with itself is its squared length |
| Vector.CrossIsOrthogonal | src/geometry/vector.rs:52-57 | the cross product is orthogonal to both factors |
| Vector.CrossOfAxes | src/geometry/vector.rs:357-364 | x cross y is z, as the crate's test expects |
| Vector.AddNegIsZero | src/geometry/vector.rs:379-388 | v + (-v) is zero and negation is an involution |
| Vector.SubIsAddNeg | src/geometry/vector.rs:206-208 | a - b is a + (-b), and adding b back gives a |
| Vector.ScaleDivRoundTrip | src/geometry/vector.rs:281-283 | dividing by a non-zero scalar undoes multiplying by it |
| Vector.MinElementwiseIsMeet | src/geometry/vector.rs:99-104 | `min_elementwise` is a componentwise lower bound attained by one argument |
| Vector.MaxElementwiseBounds | src/geometry/vector.rs:106-111 | `max_elementwise` bounds x and z of both arguments, but its y bounds `a.y` and `b.z` |
| Vector.MaxElementwiseMissesY | src/geometry/vector.rs:108 | a concrete pair where `b.y` exceeds the result's y |
| Vector.FromHexWhite | src/geometry/vector.rs:140-159 | "#fff" and "#ffffff" both give white |
| Vector.FromHexUnsignedInUnitRange | src/geometry/vector.rs:140-159 | without sign characters every channel of `from_hex` lies in [0, 1] |
| Vector.ChannelInRange | src/geometry/vector.rs:148-151 | one unsigned field scaled by `1 / max_value` lies in [0, 1] |
| Vector.FromHexAcceptsSign | src/geometry/vector.rs:149 | the radix parser accepts a sign, so "#-f0000" has a negative red channel |
| Vector.Add | src/geometry/vector.rs:181-186 | no contract of its own; `Vector.AddNegIsZero` and `Vector.SubIsAddNeg` show that adding `-v` gives zero and that subtracting b undoes adding it |
| Vector.AddScalar | src/geometry/vector.rs:188-193 | no contract of its own; `Vector.ScalarOffsets` shows adding `-s` undoes adding s |
| Vector.Sub | src/geometry/vector.rs:204-209 | no contract of its own; `Vector.SubIsAddNeg` shows a - b is a + (-b) and that adding b back gives a |
| Vector.ScalarSub | src/geometry/vector.rs:211-216 | no contract of its own; `Vector.ScalarOffsets` shows s - v is -v + s |
| Vector.Neg | src/geometry/vector.rs:227-232 | no contract of its own; `Vector.AddNegIsZero` shows v + (-v) is zero and negation is an involution |
| Vector.Scale | src/geometry/vector.rs:235-254 | no contract of its own; `Vector.ScaleDivRoundTrip` shows dividing by a non-zero s undoes it, `Vector.LengthSquaredOfScale` that it scales the squared length by s² |
| Vector.Mul | src/geometry/vector.rs:256-268 | no contract of its own; `Vector.MulCommutesWithUnit` shows the componentwise product commutes and has (1, 1, 1) as unit |
| Vector.Div | src/geometry/vector.rs:279-284 | no contract of its own; `Vector.ScaleDivRoundTrip` shows it undoes scaling; a zero divisor is outside the precondition |
| Vector.ScalarDiv | src/geometry/vector.rs:294-299 | no contract of its own; `Vector.ScalarDivInverts` shows (s / v) * v is (s, s, s) when no component of v is zero |
| Vector.LengthSquared | src/geometry/vector.rs:44-46 | no contract of its own; `Vector.LengthSquaredNonNegative` and `Vector.DotSelfIsLengthSquared` show it is non-negative and is v · v |
| Vector.Dot | src/geometry/vector.rs:48-50 | no contract of its own; `Vector.DotSelfIsLengthSquared` and `Vector.CrossIsOrthogonal` relate it to the squared length and the cross product |
| Vector.Cross | src/geometry/vector.rs:52-57 | no contract of its own; `Vector.CrossIsOrthogonal` shows it is orthogonal to both factors, `Vector.CrossOfAxes` that x × y is z |
| Vector.MinElementwise | src/geometry/vector.rs:99-104 | no contract of its own; `Vector.MinElementwiseIsMeet` shows it is a componentwise lower bound attained by an argument |
| Vector.MaxElementwise | src/geometry/vector.rs:106-111 | no contract of its own; as written its y is `max(a.y, b.z)`: `Vector.MaxElementwiseBounds` and `Vector.MaxElementwiseMissesY` state what it bounds and where it fails |
| Vector.FromHex | src/geometry/vector.rs:140-159 | no contract of its own; `Vector.FromHexWhite`, `Vector.FromHexUnsignedInUnitRange` and `Vector.FromHexAcceptsSign` state its results |
| Vector.Normalize | src/geometry/vector.rs:127-134 | no contract of its own; `Vector.NormalizeIsUnit` states the unit length and direction |
| Vector.MulCommutesWithUnit | src/geometry/vector.rs:256-261 | v * w equals w * v, and v * (1, 1, 1) is v |
| Vector.ScalarOffsets | src/geometry/vector.rs:188-216 | (v + s) + (-s) is v, and s - v is (-v) + s |
| Vector.ScalarDivInverts | src/geometry/vector.rs:294-299 | s / v, multiplied componentwise by v, gives s in every component |
| Vector.LengthSquaredOfScale | src/geometry/vector.rs:235-240 | scaling by k multiplies the squared length by k² |
| Vector.NormalizeIsUnit | src/geometry/vector.rs:123-134 | a vector of positive length normalises to a positive multiple of itself with squared length 1; a vector of length zero is returned unchanged |
| Point.Index | src/geometry/point.rs:145-153 | indexing a point agrees with indexing its vector; an index above 2 is outside the precondition |
| Point.Permute | src/geometry/point.rs:33-39 | coordinate 0, 1, 2 of the result are coordinates i, j, k of the input |
| Point.Abs | src/geometry/point.rs:41-47 | every coordinate is non-negative and is the input's coordinate or its negation |
| Point.PMin | src/geometry/point.rs:49-54 | the componentwise minimum: below both points and attained by one of them |
| Point.PMax | src/geometry/point.rs:56-61 | the componentwise maximum: above both points and attained by one of them |
| Point.Sub | src/geometry/point.rs:87-93 | p - q is the vector that takes q to p |
| Point.SubVec | src/geometry/point.rs:109-115 | in this file point - vector yields a vector r with r + v equal to p |
| Point.ScaleLeft | src/geometry/point.rs:129-131 | s * p equals p * s |
| Point.Point2FromPoint3 | src/geometry/point.rs:189-191 | `from_point3` keeps x and y |
| Point.PermuteIdentity | src/geometry/point.rs:33-39 | permuting by (0, 1, 2) changes nothing |
| Point.PermuteSwapIsInvolution | src/geometry/point.rs:33-39 | a swap undoes itself; a rotation is undone by the inverse rotation |
| Point.MinBelowMax | src/geometry/point.rs:49-61 | the componentwise minimum lies below the componentwise maximum |
| Point.AddDifference | src/geometry/point.rs:76-93 | p + (q - p) is q, and p - p is zero |
| Point.Add | src/geometry/point.rs:69-74 | no contract of its own; `Point.AddCommutesWithOrigin` shows it commutes and has the default point as unit |
| Point.AddVec | src/geometry/point.rs:76-81 | no contract of its own; `Point.AddDifference` and the contract of `Point.Sub` show p + (q - p) is q |
| Point.Scale | src/geometry/point.rs:120-125 | no contract of its own; the contract of `Point.ScaleLeft` shows s * p equals p * s |
| Point.Default | src/geometry/point.rs:166-171 | no contract of its own; `Point.AddCommutesWithOrigin` shows it is the unit of point addition |
| Point.AddCommutesWithOrigin | src/geometry/point.rs:69-74 | p + q is q + p, and p + default is p |
| Bounds3.LerpScalar | src/geometry/bounds3.rs:54-60 | helper: one axis of `lerp` |
| Bounds3.LerpScalarBetween | src/geometry/bounds3.rs:54-60 | a weight in [0, 1] interpolates to a value between the two ends |
| Point3Ops.FromVector | src/geometry/point3.rs:36-42 | the point has the vector's coordinates |
| Point3Ops.SubVec | src/geometry/point3.rs:94-100 | point - vector is the point that the vector carries back to p |
| Point3Ops.VecSub | src/geometry/point3.rs:82-88 | vector - point is the vector that carries p to the vector's point |
| Point3Ops.Div | src/geometry/point3.rs:159-166 | dividing by a non-zero scalar (via its reciprocal) is undone by scaling |
| Point3Ops.Neg | src/geometry/point3.rs:182-188 | p plus its negation is the origin |
| Point3Ops.Eq | src/geometry/point3.rs:193-195 | `eq` holds exactly for equal points |
| Point3Ops.Ne | src/geometry/point3.rs:197-199 | `ne` is the negation of `eq` |
| Point3Ops.Point3Var.constructor | src/geometry/point3.rs:18-24 | the variable holds the given point |
| Point3Ops.Point3Var.AddAssignVec | src/geometry/point3.rs:72-76 | `p += v` leaves p moved by v |
| Point3Ops.Point3Var.SubAssignVec | src/geometry/point3.rs:118-122 | `p -= v` leaves p moved back by v |
| Point3Ops.Point3Var.AddAssignPoint | src/geometry/point3.rs:127-131 | `p += q` leaves the coordinate sum |
| Point3Ops.Point3Var.MulAssign | src/geometry/point3.rs:148-152 | `*=` leaves the scaled point |
| Point3Ops.Point3Var.DivAssign | src/geometry/point3.rs:171-176 | `/=` by a non-zero scalar leaves the quotient |
| Point3Ops.AddThenSubVec | src/geometry/point3.rs:49-100 | adding then subtracting a vector, in either order, gives the point back |
| Point3Ops.ConversionRoundTrip | src/geometry/point3.rs:36-42 | point-to-vector and vector-to-point are mutually inverse |
| Point3Ops.NegIsInvolution | src/geometry/point3.rs:182-188 | negating twice gives the point back |
| Point2Ops.FromVector | src/geometry/point2.rs:33-35 | converting back to a vector gives the original vector |
| Point2Ops.VecSub | src/geometry/point2.rs:74-79 | vector - point is the vector that carries p to the vector's point |
| Point2Ops.Sub | src/geometry/point2.rs:85-90 | p - q is the vector that carries q to p |
| Point2Ops.SubVec | src/geometry/point2.rs:108-113 | point - vector is the point that the vector carries back to p |
| Point2Ops.Neg | src/geometry/point2.rs:119-124 | p plus its negation is the origin |
| Point2Ops.Div | src/geometry/point2.rs:176-182 | dividing by a non-zero scalar is undone by scaling |
| Point2Ops.Eq | src/geometry/point2.rs:129-131 | `eq` holds exactly for equal points |
| Point2Ops.Point2Var.constructor | src/geometry/point2.rs:15-20 | the variable holds the given point |
| Point2Ops.Point2Var.AddAssignVec | src/geometry/point2.rs:65-68 | `p += v` leaves p moved by v |
| Point2Ops.Point2Var.SubAssignVec | src/geometry/point2.rs:140-143 | `p -= v` leaves p moved back by v |
| Point2Ops.Point2Var.AddAssignPoint | src/geometry/point2.rs:148-151 | `p += q` leaves the coordinate sum |
| Point2Ops.Point2Var.MulAssign | src/geometry/point2.rs:167-170 | `*=` leaves the scaled point |
| Point2Ops.Point2Var.DivAssign | src/geometry/point2.rs:187-191 | `/=` by a non-zero scalar leaves the quotient |
| Point2Ops.AddThenSubVec | src/geometry/point2.rs:43-113 | subtracting the added vector gives p back, and the difference of the moved point and p is the vector |
| Point2Ops.NeOfSelf | src/geometry/point2.rs:129-135 | `eq` of a point with itself always holds, while `ne` holds exactly when x and y differ |
| Point2Ops.EqAndNeDisagree | src/geometry/point2.rs:133-135 | concrete pairs where `eq` and `ne` are both true, and both false |
| Point2Ops.Ne | src/geometry/point2.rs:133-135 | no contract of its own; as written it compares `self.x` with `other.y`: `Point2Ops.NeOfSelf` and `Point2Ops.EqAndNeDisagree` state the consequences |
| Point2Ops.AddVec | src/geometry/point2.rs:39-49 | no contract of its own; `Point2Ops.AddThenSubVec` shows subtracting the vector again gives p back |
| Point2Ops.AddPoint | src/geometry/point2.rs:51-61 | no contract of its own; the contract of `Point2Ops.Neg` shows p + (-p) is the default point |
| Point2Ops.Scale | src/geometry/point2.rs:154-162 | no contract of its own; the contract of `Point2Ops.Div` shows dividing by s undoes scaling by s |
| Point2Ops.Default | src/geometry/point2.rs:195-203 | no contract of its own; the contract of `Point2Ops.Neg` shows it is what p + (-p) gives |
| Vector2.LengthSquared | src/geometry/vector2.rs:30-32 | the squared length is non-negative and at least each squared component |
| Vector2.FromPoint2 | src/geometry/vector2.rs:42-44 | the vector has the point's coordinates |
| Vector2.FromPoint3 | src/geometry/vector2.rs:49-51 | the conversion from a 3-D point drops z |
| Vector2.Sub | src/geometry/vector2.rs:77-82 | a - b is the vector that, added to b, gives a |
| Vector2.Div | src/geometry/vector2.rs:126-131 | dividing by a non-zero scalar is undone by scaling |
| Vector2.Neg | src/geometry/vector2.rs:145-147 | v plus its negation is the zero vector |
| Vector2.Ne | src/geometry/vector2.rs:99-101 | `ne` is the negation of `eq` as written |
| Vector2.Vec2Var.constructor | src/geometry/vector2.rs:16-21 | the variable holds the given components |
| Vector2.Vec2Var.AddAssign | src/geometry/vector2.rs:68-71 | `+=` leaves the sum |
| Vector2.Vec2Var.SubAssign | src/geometry/vector2.rs:87-90 | `-=` leaves the difference |
| Vector2.Vec2Var.MulAssign | src/geometry/vector2.rs:117-120 | `*=` leaves the scaled vector |
| Vector2.Vec2Var.DivAssign | src/geometry/vector2.rs:136-139 | `/=` by a non-zero scalar leaves the quotient |
| Vector2.EqReflexiveOnlyOnDiagonal | src/geometry/vector2.rs:95-97 | `eq` of a vector with itself holds exactly when its two components agree |
| Vector2.EqIgnoresOwnY | src/geometry/vector2.rs:95-97 | concrete vectors: `eq` fails on an equal pair and holds on a different pair |
| Vector2.SubAddRoundTrip | src/geometry/vector2.rs:58-82 | (a + b) - b is a, and negation is an involution |
| Vector2.Eq | src/geometry/vector2.rs:95-97 | no contract of its own; as written it compares `self.x` with `other.y`: `Vector2.EqReflexiveOnlyOnDiagonal` and `Vector2.EqIgnoresOwnY` state the consequences |
| Vector2.Add | src/geometry/vector2.rs:55-64 | no contract of its own; the contract of `Vector2.Sub` and `Vector2.SubAddRoundTrip` show subtraction undoes it |
| Vector2.Scale | src/geometry/vector2.rs:104-113 | no contract of its own; the contract of `Vector2.Div` shows dividing by s undoes scaling by s |
| Vector2.Default | src/geometry/vector2.rs:151-159 | no contract of its own; the contract of `Vector2.Neg` shows v + (-v) is the default vector |
| Normal3.LengthSquared | src/geometry/normal3.rs:27-29 | the squared length agrees with the vector's and is non-negative |
| Normal3.FaceForward | src/geometry/normal3.rs:46-48 | the result is the normal or its negation, lies in v's hemisphere, and is the normal itself when that already does |
| Normal3.Sub | src/geometry/normal3.rs:90-96 | a - b is the normal that, added to b, gives a |
| Normal3.Div | src/geometry/normal3.rs:134-141 | dividing by a non-zero scalar is undone by scaling |
| Normal3.Ne | src/geometry/normal3.rs:160-162 | `ne` holds exactly for different normals |
| Normal3.Eq | src/geometry/normal3.rs:156-158 | no contract of its own; as written it compares `self.x` with `other.y`: `Normal3.EqReflexiveOnlyWhenXEqualsY` and `Normal3.EqAndNeBothFalse` state the consequences |
| Normal3.Add | src/geometry/normal3.rs:66-76 | no contract of its own; the contract of `Normal3.Sub` and `Normal3.NegIsInvolution` show subtraction undoes it and n + (-n) is zero |
| Normal3.Neg | src/geometry/normal3.rs:54-64 | no contract of its own; `Normal3.NegIsInvolution` shows negation is an involution and n + (-n) is zero |
| Normal3.Scale | src/geometry/normal3.rs:109-119 | no contract of its own; the contract of `Normal3.Div` shows dividing by s undoes scaling by s |
| Normal3.Normal3Var.constructor | src/geometry/normal3.rs:16-22 | the variable holds the given components |
| Normal3.Normal3Var.AddAssign | src/geometry/normal3.rs:80-84 | `+=` leaves the sum |
| Normal3.Normal3Var.SubAssign | src/geometry/normal3.rs:101-105 | `-=` leaves the difference |
| Normal3.Normal3Var.MulAssign | src/geometry/normal3.rs:123-127 | `*=` leaves the scaled normal |
| Normal3.Normal3Var.DivAssign | src/geometry/normal3.rs:146-151 | `/=` by a non-zero scalar leaves the quotient |
| Normal3.NegIsInvolution | src/geometry/normal3.rs:57-75 | negating twice gives the normal back, and n + (-n) is zero |
| Normal3.EqReflexiveOnlyWhenXEqualsY | src/geometry/normal3.rs:156-158 | `eq` of a normal with itself holds exactly when its x and y agree |
| Normal3.EqAndNeBothFalse | src/geometry/normal3.rs:156-162 | for (0, 1, 0) against itself neither `eq` nor `ne` holds |
| Bounds3.New | src/geometry/bounds3.rs:17-22 | a well-formed box holding both points and contained in every box that holds both |
| Bounds3.Diagonal | src/geometry/bounds3.rs:27-29 | the vector that takes `p_min` to `p_max`, non-negative on a well-formed box |
| Bounds3.SurfaceArea | src/geometry/bounds3.rs:31-34 | the surface area of a well-formed box is non-negative |
| Bounds3.Volume | src/geometry/bounds3.rs:36-39 | the volume of a well-formed box is non-negative |
| Bounds3.MaximumExtent | src/geometry/bounds3.rs:41-44 | an axis whose extent is at least every other axis's |
| Bounds3.OffsetAxis | src/geometry/bounds3.rs:46-52 | on a non-degenerate axis, 0 at `p_min`, 1 at `p_max` and in [0, 1] between; otherwise the plain difference |
| Bounds3.Offset | src/geometry/bounds3.rs:46-52 | each axis is the per-axis offset; a point inside the box has offsets in [0, 1] |
| Bounds3.Lerp | src/geometry/bounds3.rs:54-60 | weights in [0, 1] give a point inside a well-formed box |
| Bounds3.OffsetUndoesLerp | src/geometry/bounds3.rs:46-60 | on a box with positive extents, `offset` of `lerp(p)` is p |
| Bounds3.Union | src/geometry/bounds3.rs:62-75 | a well-formed box holding the point and containing the original box |
| Bounds3.UnionBounds | src/geometry/bounds3.rs:77-90 | a well-formed box containing both boxes |
| Bounds3.Intersection | src/geometry/bounds3.rs:92-105 | always well formed; for overlapping boxes it lies inside both |
| Bounds3.Expand | src/geometry/bounds3.rs:120-125 | always well formed; a non-negative factor gives a box containing the original |
| Bounds3.Index | src/geometry/bounds3.rs:142-149 | 0 gives `p_min` and 1 gives `p_max`; a larger index is outside the precondition |
| Bounds3.Corner | src/geometry/bounds3.rs:130-136 | every coordinate of a corner comes from `p_min` or `p_max` |
| Bounds3.Eq | src/geometry/bounds3.rs:154-156 | `eq` holds exactly for equal boxes |
| Bounds3.Ne | src/geometry/bounds3.rs:158-160 | `ne` is the negation of `eq` |
| Bounds3.Overlaps | src/geometry/bounds3.rs:107-112 | no contract of its own; `Bounds3.OverlapsIsSymmetric` and the contract of `Bounds3.Intersection` show it is symmetric and that overlapping boxes intersect inside both |
| Bounds3.PointInside | src/geometry/bounds3.rs:114-118 | no contract of its own; the contracts of `Bounds3.New`, `Bounds3.Union` and `Bounds3.Lerp` and `Bounds3.CornersAreInside` state which points are inside |
| Bounds3.NewIsSymmetric | src/geometry/bounds3.rs:17-22 | the order of the two points does not matter |
| Bounds3.OverlapsIsSymmetric | src/geometry/bounds3.rs:107-112 | `overlaps` is symmetric |
| Bounds3.CornersAreInside | src/geometry/bounds3.rs:114-136 | every corner of a well-formed box is inside it |
| Bounds3.CornerExtremes | src/geometry/bounds3.rs:130-136 | corner 0 is `p_min` and corner 7 is `p_max` |
| Bounds3.OffsetOfCorners | src/geometry/bounds3.rs:46-52 | `p_min` has offset zero; `p_max` has offset 1 on every non-degenerate axis |
| Bounds3.IntersectionOfDisjointBoxes | src/geometry/bounds3.rs:92-105 | for two disjoint unit boxes the intersection is the gap between them, not an empty box |
| Bounds2.New | src/geometry/bounds2.rs:15-20 | a well-formed rectangle holding both points whose corners come from the points |
| Bounds2.Diagonal | src/geometry/bounds2.rs:22-24 | the vector that takes `p_min` to `p_max`, non-negative on a well-formed rectangle |
| Bounds2.MaximumExtent | src/geometry/bounds2.rs:26-29 | 0 exactly when the x extent is strictly larger, else 1 |
| Bounds2.Area | src/geometry/bounds2.rs:31-34 | the area of a well-formed rectangle is non-negative |
| Bounds2.Lerp | src/geometry/bounds2.rs:39-44 | weights in [0, 1] give a point inside a well-formed rectangle |
| Bounds2.OffsetUndoesLerp | src/geometry/bounds2.rs:39-51 | on a rectangle with positive extents, `offset` of `lerp(p)` is p |
| Bounds2.Offset | src/geometry/bounds2.rs:46-51 | each axis is divided by its extent only when that extent is positive |
| Bounds2.Eq | src/geometry/bounds2.rs:57-59 | `eq` holds exactly for equal rectangles |
| Bounds2.OffsetOfMin | src/geometry/bounds2.rs:46-51 | `p_min` has offset zero |
| Bounds2.NeOfSelf | src/geometry/bounds2.rs:60-62 | a rectangle is `eq` to itself, yet `ne` to itself as soon as one corner has different x and y |
| Bounds2.Ne | src/geometry/bounds2.rs:60-62 | no contract of its own; `Bounds2.NeOfSelf` shows that, as written, it can hold of a rectangle and itself |
| BoundingVolumes.FoldUnion | src/bvh.rs:25-30 | the fold of `from` lies below or above the accumulator and every box, and each coordinate is attained |
| BoundingVolumes.From | src/bvh.rs:25-30 | for a non-empty list, the smallest box containing every input box: every bound is attained by some box |
| BoundingVolumes.IntersectMod | src/bvh.rs:102-135 | the running-interval slab test answers true exactly when the three slab intervals overlap within [t_min, t_max] |
| BoundingVolumes.SlabAxis | src/bvh.rs:109-124 | on one axis, a parameter at which the ray is inside the slab lies between the entry and exit parameters |
| BoundingVolumes.SlabContains | src/bvh.rs:109-124 | the same fact stated with the near and far parameters the test computes |
| BoundingVolumes.SlabTestIsConservative | src/bvh.rs:102-135 | the slab test never rejects a box the ray is inside at a parameter strictly within the window |
| BoundingVolumes.Diagonal | src/bvh.rs:138-140 | the vector from the min corner to the max corner, non-negative on a valid box |
| BoundingVolumes.MaximumExtent | src/bvh.rs:143-151 | 0 exactly when x is strictly longest, 1 exactly when otherwise y beats z; the chosen axis is a longest one |
| BoundingVolumes.Lerp | src/bvh.rs:154-160 | weights in [0, 1] give a point inside a valid box |
| BoundingVolumes.LerpEndpoints | src/bvh.rs:154-160 | weight zero gives the min corner and weight one the max corner |
| GeomUtils.RandomVector | src/geometry/utils.rs:7-12 | draws in [0, 1] give components in [-1, 1] |
| GeomUtils.Ranged | src/geometry/utils.rs:14-20 | a draw in [0, 1] gives a component in [min, max] |
| GeomUtils.RandomVectorRanged | src/geometry/utils.rs:14-20 | draws in [0, 1] give a vector in the box [min, max]³ |
| GeomUtils.DistanceSquared | src/geometry/utils.rs:101-103 | the squared distance is non-negative |
| GeomUtils.DistanceSquaredSymmetric | src/geometry/utils.rs:101-103 | the squared distance is symmetric and zero from a point to itself |
| GeomUtils.ReflectNegatesNormalPart | src/geometry/utils.rs:59-61 | reflection about a unit normal negates the component along the normal |
| GeomUtils.ReflectIsInvolution | src/geometry/utils.rs:59-61 | reflecting twice about a unit normal gives the vector back |
| GeomUtils.LerpEndpoints | src/geometry/utils.rs:105-107 | `lerp` at 0 is the first point and at 1 the second |
| GeomUtils.Reflect | src/geometry/utils.rs:59-61 | no contract of its own; `GeomUtils.ReflectNegatesNormalPart` and `GeomUtils.ReflectIsInvolution` state its effect about a unit normal |
| GeomUtils.Lerp | src/geometry/utils.rs:105-107 | no contract of its own; `GeomUtils.LerpEndpoints` shows it is a at 0 and b at 1 |
| Rays.Reciprocal | src/geometry/ray.rs:19-29 | the cached inverse of a non-zero direction component multiplies with it to 1 |
| Rays.New | src/geometry/ray.rs:19-29 | the origin is kept, the direction normalised, each non-zero component's inverse cached, and the medium is air (IOR 1) |
| Rays.NewIsUnit | src/geometry/ray.rs:19-29 | with a true square root a non-zero direction becomes a unit vector |
| Rays.At | src/geometry/ray.rs:31-34 | the point reached is the origin moved by t times the direction |
| Rays.AtZeroIsOrigin | src/geometry/ray.rs:31-34 | at t = 0 the ray is at its origin |
| Rays.WithFaceNormal | src/geometry/ray.rs:63-66 | front face exactly when the ray travels against the outward normal; the stored normal is the outward normal or its negation; other fields are kept |
| Rays.FaceNormalFacesRay | src/geometry/ray.rs:63-66 | the stored normal always faces against the ray |
| Rays.FaceNormalIdempotent | src/geometry/ray.rs:63-66 | applying `set_face_normal` twice equals applying it once |
| Rays.HitRecord.constructor | src/geometry/ray.rs:53-61 | a new record is all zeros and has no material |
| Rays.HitRecord.SetFaceNormal | src/geometry/ray.rs:63-66 | the record becomes its face-normal update |
| Rays.HitRecord.CopyFrom | src/geometry/ray.rs:68-74 | all five fields are copied from the other record |
| Triangles.New | src/objects/triangle.rs:24-39 | the vertices are kept, the edges run from the first vertex, the centre is the centroid and there is no material |
| Triangles.NewNormalIsOrthogonal | src/objects/triangle.rs:24-39 | the stored normal is orthogonal to both edges |
| Triangles.Solve | src/objects/triangle.rs:41-63 | a near-parallel ray gives no solution; a solution has barycentric weights u, v ≥ 0 with u + v ≤ 1 |
| Triangles.SolveIsOnTriangle | src/objects/triangle.rs:41-65 | the ray at the returned t is exactly the point with the returned barycentric weights |
| Triangles.Cramer | src/objects/triangle.rs:47-65 | Cramer's rule for the Möller–Trumbore system, multiplied out by its determinant |
| Triangles.Hit | src/objects/triangle.rs:41-76 | a hit lies in the closed window on the ray, carries the triangle's material, and is on the front face exactly when the ray travels against the triangle's normal |
| Triangles.HitFacesRay | src/objects/triangle.rs:41-76 | the normal of a hit faces against the ray |
| Triangles.HitIsOnTriangle | src/objects/triangle.rs:41-76 | every hit point is a point of the triangle |
| Triangles.HitNarrowing | src/objects/triangle.rs:41-76 | shrinking the far end keeps a hit still inside the window and drops one beyond it, and nothing else changes |
| Triangles.IntersectMt | src/objects/triangle.rs:41-76 | reports a hit exactly when there is one, writes its record, and leaves the record untouched on a miss |
| Triangles.Translate | src/objects/triangle.rs:78-83 | vertices move by the offset, the result is well formed (edges from the first vertex, centre at the centroid), the edges are kept, and the material is dropped by the rebuild |
| Triangles.TranslateKeepsShape | src/objects/triangle.rs:78-83 | translation keeps the normal and moves the centroid by the offset |
| Triangles.SetMaterial | src/objects/triangle.rs:85-87 | only the material changes, so a well-formed triangle stays well formed |
| Triangles.Position | src/objects/triangle.rs:108-110 | on a well-formed triangle the position is the centroid: three times it is the sum of the vertices |
| Triangles.GetMaterial | src/objects/triangle.rs:104-106 | setting the reported material again leaves the triangle unchanged |
| Triangles.BoundingVolume | src/objects/triangle.rs:112-116 | the min corner is below every vertex; the max corner bounds x and z, but its y is the maximum of `p0.y`, `p1.z` and `p2.z` |
| Triangles.BoundingVolumeMissesVertex | src/objects/triangle.rs:112-116 | a concrete triangle whose second vertex lies outside its bounding volume |
| Triangles.RandomPointOnSurface | src/objects/triangle.rs:118-127 | draws in [0, 1] give a point of the triangle, folding weights that sum past 1 |
| Spheres.New | src/objects/sphere.rs:19-26 | the fields are kept and the cached inverse radius multiplies with a non-zero radius to 1 |
| Spheres.RootsOf | src/objects/sphere.rs:31-45 | no roots exactly when the discriminant is negative; with a true square root the near root comes first |
| Spheres.RootsSolveQuadratic | src/objects/sphere.rs:31-45 | with a true square root both roots solve the quadratic |
| Spheres.Choose | src/objects/sphere.rs:45-53 | the nearer root when it is in the window, else the farther when it is, else none |
| Spheres.NearerRootFirst | src/objects/sphere.rs:45-53 | when the nearer root is in the window, it is the hit reported |
| Spheres.Record | src/objects/sphere.rs:56-69 | the record has the parameter, the point on the ray and the sphere's material |
| Spheres.RecordFacesRay | src/objects/sphere.rs:56-69 | the record's normal faces against the ray |
| Spheres.HitParameter | src/objects/sphere.rs:30-70 | a reported parameter is one of the roots and lies in the window |
| Spheres.Hit | src/objects/sphere.rs:30-70 | a hit lies in the window on the ray at one of the roots, with the sphere's material; no roots means no hit |
| Spheres.RootIsOnSphere | src/objects/sphere.rs:31-53 | for a unit-direction ray both roots are points on the sphere |
| Spheres.HitIsOnSphere | src/objects/sphere.rs:30-70 | for a unit-direction ray and a true square root every hit point is on the sphere |
| Spheres.HitNarrowing | src/objects/sphere.rs:30-70 | shrinking the far end keeps a hit still inside the window and drops one beyond it |
| Spheres.Intersect | src/objects/sphere.rs:30-70 | reports a hit exactly when there is one, writes its record, and leaves the record untouched on a miss |
| Spheres.GetMaterial | src/objects/sphere.rs:72-74 | a sphere always has its material |
| Spheres.Position | src/objects/sphere.rs:76-78 | the position is the centre |
| Spheres.BoundingVolume | src/objects/sphere.rs:80-85 | the centre offset by the radius on every axis; for a non-negative radius a valid box containing the centre |
| Spheres.SurfaceInsideBox | src/objects/sphere.rs:80-85 | every point of the surface lies in the bounding volume |
| Spheres.HitInsideBox | src/objects/sphere.rs:30-85 | every hit point of a unit-direction ray lies in the bounding volume |
| Primitives.Hit | src/rtx_traits.rs:8-14 | a primitive's hit lies in the window on the ray and carries its material |
| Primitives.Intersect | src/rtx_traits.rs:9 | dispatching `intersect` reports a hit exactly when there is one and otherwise leaves the record untouched |
| Primitives.GetMaterial | src/rtx_traits.rs:10 | a sphere always has its material; a triangle has its optional one |
| Primitives.Position | src/rtx_traits.rs:11 | the centre of a sphere; for a well-formed triangle, the centroid |
| Primitives.HitNarrowing | src/rtx_traits.rs:9 | for both kinds, shrinking the window's far end keeps a hit before it and drops one beyond it |
| Meshes.New | src/objects/mesh.rs:12-28 | every triangle is moved by the centre's offset and given the material; count, order and edges are kept |
| Meshes.GetTriangles | src/objects/mesh.rs:30-32 | the stored triangles in order; in a built mesh each has a material |
| ScenePresets.TriangulateSquare | src/scenes.rs:4-11 | four corners give the fan (p0, p1, p2), (p0, p2, p3) of well-formed triangles without material |
| ScenePresets.SquareCoversCorners | src/scenes.rs:4-11 | the two triangles use every corner: the diagonal ends twice and the others once |
| Bvh.NewInner | src/bvh.rs:182-189 | an inner node with exactly the two sub-volumes and no children |
| Bvh.NewLeaf | src/bvh.rs:191-198 | a leaf with the children and no sub-volumes |
| Bvh.SpatialAxis | src/bvh.rs:226-266 | x exactly when its extent is strictly largest, y exactly when otherwise strictly larger than both, else z |
| Bvh.Partition | src/bvh.rs:231-238 | the two filters lose nothing and duplicate nothing: keys at or below the split go left, the rest right |
| Bvh.SpatialSplit | src/bvh.rs:225-285 | the split at the middle of the union box is a partition of the input |
| Bvh.SpatialMedian | src/bvh.rs:218-286 | an empty list panics; at most `max` elements give a leaf over them; more give an inner node bounded by their union |
| Bvh.SpatialMedianWellBuilt | src/bvh.rs:218-286 | every spatial-median tree that is built is well formed |
| Bvh.SpatialMedianTight | src/bvh.rs:218-286 | at every node of a built spatial-median tree the box is exactly the union of the boxes of the elements below it: it holds each of them and each of its six bounds is attained by one |
| Bvh.SpatialMedianLeaves | src/bvh.rs:218-286 | every spatial-median tree that is built holds each input element exactly once |
| Bvh.SpatialMedianStep | src/bvh.rs:255-286 | a built inner step splits the list into two non-empty sides that partition it, both built, under the union box |
| Bvh.SpatialMedianDivergesOnWholeSplit | src/bvh.rs:231-285 | a list longer than `max` whose split leaves the right side empty recurses without end (the process overflows its stack) |
| Bvh.SphereAtMiddle | src/bvh.rs:266-277 | a sphere's position is the middle of its own box on the split axis, so copies of it all go left |
| Bvh.StackedElementsDiverge | src/bvh.rs:338-350 | more than 19 copies of one element at or below the middle of its box make `generate_bvh` with the spatial median recurse without end (the process overflows its stack) |
| Bvh.StackedSpheresDiverge | src/bvh.rs:338-350 | more than 19 copies of one sphere make the spatial-median build recurse without end |
| Bvh.Insert | src/bvh.rs:292-295 | helper of the stable sort: one more element, the rest kept |
| Bvh.SortByAxis | src/bvh.rs:292-295 | the sort is a permutation ordered by the axis coordinate |
| Bvh.InsertKeepsSorted | src/bvh.rs:292-295 | inserting into a sorted list keeps it sorted |
| Bvh.SplitByAxis | src/bvh.rs:289-309 | halves of size ⌊n/2⌋ and ⌈n/2⌉ that partition the input, every key on the left at most every key on the right |
| Bvh.SplitRatioDependsOnCount | src/bvh.rs:297-305 | every axis gives the same split ratio, since each cuts at the same count |
| Bvh.BestSplitFrom | src/bvh.rs:318-328 | the split the loop keeps always has a non-empty right side |
| Bvh.ChooseSplit | src/bvh.rs:318-328 | the loop over the axes settles on the x-axis split |
| Bvh.BestSplitIsAxisZero | src/bvh.rs:318-328 | the object median always recurses on the x-axis split, because no later axis has a strictly smaller ratio |
| Bvh.ObjectMedian | src/bvh.rs:311-335 | an empty list panics; small lists give a leaf; larger ones an inner node bounded by their union |
| Bvh.ObjectMedianBuilds | src/bvh.rs:311-335 | with at least one element per leaf the object median always finishes |
| Bvh.ObjectMedianWellBuilt | src/bvh.rs:311-335 | every object-median tree is well formed |
| Bvh.ObjectMedianTight | src/bvh.rs:311-335 | at every node of an object-median tree the box is exactly the union of the boxes of the elements below it |
| Bvh.ObjectMedianLeaves | src/bvh.rs:311-335 | every object-median tree holds each input element exactly once |
| Bvh.ObjectMedianStep | src/bvh.rs:311-335 | a built inner step recurses on the axis-0 split, two non-empty sides that partition the list, both built, under the union box |
| Bvh.LeafWellBuilt | src/bvh.rs:219-223 | a leaf over a non-empty list of at most `max` elements is well formed |
| Bvh.InnerWellBuilt | src/bvh.rs:182-189 | an inner node over a split whose sides are well built is well formed |
| Bvh.InnerTight | src/bvh.rs:182-189 | an inner node whose own box is the union below it over two tight sides is tight |
| Bvh.FromIsUnion | src/bvh.rs:25-30 | `BoundingVolume::from` over a list is the union of its boxes, whatever the order of its elements |
| Bvh.InnerLeaves | src/bvh.rs:182-189 | an inner node over a split holds each element of the list once when its sides do |
| Bvh.FromOfSublist | src/bvh.rs:25-30 | the union of a sub-list's boxes lies within the union of the whole list's |
| Bvh.FoldOfCopies | src/bvh.rs:25-30 | the union of copies of one box is that box |
| Bvh.PartitionOfCopies | src/bvh.rs:231-238 | copies of one pair at or below the split all go left |
| Bvh.PairsOf | src/bvh.rs:340-344 | each element paired with its own bounding volume, in order |
| Bvh.GenerateBvh | src/bvh.rs:338-350 | an empty scene panics |
| Bvh.GenerateBvhTight | src/bvh.rs:338-350 | whatever hierarchy `generate_bvh` builds is tight at every node and holds each scene element exactly once |
| Bvh.GenerateBvhObjectMedianBuilds | src/bvh.rs:338-350 | a non-empty scene with the object median always gets a hierarchy |
| Scenes.LightsAreLights | src/scene.rs:27-36 | every primitive filed as a light has a material that counts as a light |
| Scenes.ObjectsAreNotLights | src/scene.rs:27-36 | every primitive filed as an object has a material that does not count as a light |
| Scenes.ClassifyPartitions | src/scene.rs:27-36 | lights and objects together are exactly the input, nothing lost or duplicated |
| Scenes.Tris | src/scene.rs:28 | a mesh's triangles as primitives, in order |
| Scenes.Scan | src/scene.rs:81-96 | the loop's window only shrinks, and a found hit sits at the bound inside the window |
| Scenes.ScanSnoc | src/scene.rs:86-93 | one more primitive is one more step, queried with the window shrunk so far |
| Scenes.ScanBoundShrinks | src/scene.rs:81-96 | visiting more primitives never raises the bound |
| Scenes.ScanStepIsClosest | src/scene.rs:86-93 | the inductive step of the closest-hit property |
| Scenes.ScanIsClosest | src/scene.rs:81-96 | the closest-so-far loop finds a hit exactly when some primitive has one in the window; the hit is one a primitive reports, and none is nearer |
| Scenes.NodeHit | src/scene.rs:98-125 | a failed box test reports nothing; a reported hit lies in the window |
| Scenes.NodeScan | src/scene.rs:111-124 | the sub-volume loop's window only shrinks and a found hit sits at the bound |
| Scenes.NodeScanBoundShrinks | src/scene.rs:111-124 | visiting more sub-volumes never raises the bound |
| Scenes.NodeHitIsLeafHit | src/scene.rs:98-125 | traversal is sound: every hit it reports is one some primitive in a leaf below reports for the same window |
| Scenes.NodeScanIsLeafHit | src/scene.rs:111-124 | the sub-volume loop is sound in the same sense |
| Scenes.LeafOwner | src/scene.rs:115 | a primitive below a list of nodes is below one of them |
| Scenes.LeavesOfSnoc | src/scene.rs:115 | the leaves below one more node are the old leaves followed by its leaves |
| Scenes.NodeHitFindsEnclosed | src/scene.rs:98-125 | traversal is complete: when the boxes enclose the hit points, any hit strictly inside the window is found or beaten by one at least as near |
| Scenes.NodeScanFindsEnclosed | src/scene.rs:111-124 | the same for the loop over sub-volumes |
| Scenes.WellBuiltEncloses | src/scene.rs:98-125 | a well-built hierarchy encloses the hit points below each node, once each primitive's hit lies in its own box |
| Scenes.SpheresAreEnclosed | src/scene.rs:98-125 | hierarchies of spheres with non-negative radius meet that condition for a unit-direction ray |
| Scenes.Scene.constructor | src/scene.rs:19-25 | a new scene has no primitives and no hierarchy |
| Scenes.Scene.Add | src/scene.rs:27-36 | each mesh triangle is appended to the lights or to the objects by its material; the hierarchy is unchanged |
| Scenes.Scene.AddGeneric | src/scene.rs:38-45 | one primitive is appended to the lights or to the objects by its material; the hierarchy is unchanged |
| Scenes.Scene.AllElements | src/scene.rs:131-133 | the lights, then the objects |
| Scenes.Scene.UseBvh | src/scene.rs:135-137 | replaces the hierarchy and nothing else |
| Scenes.Scene.SceneHit | src/scene.rs:127-129 | brute force over the objects and then the lights without a hierarchy; traversal with one |
| Scenes.Scene.IntersectObjects | src/scene.rs:81-96 | reports the closest-so-far search's hit and writes it, or leaves the record untouched |
| Scenes.ContinueScan | src/scene.rs:58-74 | one `for object in ...` loop continues the closest-hit search from the flag, window and record the earlier primitives left |
| Scenes.Scene.IntersectNoBvh | src/scene.rs:53-79 | the search over the objects continued over the lights, with the same record discipline |
| Scenes.Scene.IntersectBvh | src/scene.rs:98-125 | reports exactly the traversal's hit and writes it, or leaves the record untouched |
| Scenes.Scene.Intersect | src/scene.rs:127-129 | reports exactly the scene's hit and writes it, or leaves the record untouched |
| Scenes.Context.constructor | src/scene.rs:149-154 | the context holds the given scene and generator |
| Weekend.InitialNext | src/rtcore/weekend.rs:19 | the next ray the integrator hands to `scatter` starts at the origin |
| Weekend.Color | src/rtcore/weekend.rs:6-47 | no depth left gives white; a miss gives black |
| Weekend.Shaded | src/rtcore/weekend.rs:17-41 | a hit without a material gives black |
| Weekend.RayColorWeekend | src/rtcore/weekend.rs:6-47 | returns the colour and generator state of the specification; it queries the scene at most once per level of depth, and at least once when depth remains |
| Weekend.ColorInUnitCube | src/rtcore/weekend.rs:6-47 | materials that only attenuate give colours in the unit cube |
| Weekend.ShadedInUnitCube | src/rtcore/weekend.rs:17-41 | the same once the ray has hit |
| Bytes.U32Le | src/stl.rs:30-36 | four little-endian bytes hold a number below 2³² |
| Bytes.DecodeEncode | src/stl.rs:30-36 | writing a word and reading it back gives the word |
| Bytes.EncodeDecode | src/stl.rs:30-36 | reading four bytes and writing the word back gives the bytes |
| Stl.ReadPoint | src/stl.rs:11-16 | fails exactly when fewer than 12 bytes remain; else the point at the front and the rest |
| Stl.ReadFacet | src/stl.rs:49-53 | a facet decodes exactly when the chunk holds at least 48 bytes |
| Stl.ReadFacetVertices | src/stl.rs:49-53 | a record's vertices are the floats at offsets 12, 24 and 36; the normal at 0 is skipped |
| Stl.Triangulate | src/stl.rs:55-57 | one triangle per facet, same vertices, in order, without material |
| Stl.FacetsCount | src/stl.rs:38-47 | the loop reads one facet per whole 50-byte record of the body |
| Stl.FacetsInOrder | src/stl.rs:38-58 | facet i is read from record i |
| Stl.LoadTrianglesFromStl | src/stl.rs:18-66 | the reading loop computes the loader's specification `Load` |
| Stl.LoadSucceeds | src/stl.rs:18-66 | success exactly when the 84 header-and-count bytes are present and the count equals the number of whole records; a short file is `UnexpectedEof`; a success has `count` triangles |
| Stl.LoadedVertices | src/stl.rs:38-58 | triangle i of a loaded file has the vertices stored in record i |
| Stl.LoadStlFile | src/stl.rs:18-66 | a file written as header, count and records (plus a short tail) loads to one triangle per record |
| Stl.CreateMeshFromStl | src/stl.rs:68-71 | the loader's error, or a mesh of the loaded triangles with the given centre and material |
| Stl.Load | src/stl.rs:18-66 | no contract of its own; the contract of `Stl.LoadTrianglesFromStl` and `Stl.LoadSucceeds` and `Stl.LoadedVertices` state what it returns |
| Stl.VertexAt | src/stl.rs:11-16 | no contract of its own; `Stl.VertexShift` and the contract of `Stl.ReadPoint` tie it to `read_point` |
| Stl.Facets | src/stl.rs:38-58 | no contract of its own; `Stl.FacetsCount` and `Stl.FacetsInOrder` show one facet per whole record, in file order |
| Mt19937.InitState | src/prng/mt19937.rs:26-50 | word 0 is the seed, words 1 to 622 follow the recurrence, and word 623 stays 0 |
| Mt19937.Seeded | src/prng/mt19937.rs:26-42 | a fresh generator with the seed in word 0 and index 0 |
| Mt19937.Twisted | src/prng/mt19937.rs:52-60 | the twist keeps 624 words |
| Mt19937.TwistKeepsLast | src/prng/mt19937.rs:52-58 | the twist never writes the last word |
| Mt19937.Next | src/prng/mt19937.rs:62-74 | an output is the tempered current word; the state is twisted first when all words are used; the index advances |
| Mt19937.Stream | src/prng/mt19937.rs:62-74 | k consecutive outputs |
| Mt19937.Mt19937Prng.constructor | src/prng/mt19937.rs:26-42 | a new generator is exactly the seeded state |
| Mt19937.Mt19937Prng.Init | src/prng/mt19937.rs:44-50 | words 0 to 622 follow the seed recurrence in place; word 623 is untouched |
| Mt19937.Mt19937Prng.Twist | src/prng/mt19937.rs:52-60 | the in-place loop leaves the twisted state and resets the index |
| Mt19937.Mt19937Prng.NextU32 | src/prng/mt19937.rs:62-74 | the output and new state are those of `Next` |
| Mt19937.CombineIsDisjoint | src/prng/mt19937.rs:54 | the two masked parts share no bit, so their sum is their bitwise or |
| Mt19937.TemperZero | src/prng/mt19937.rs:67-71 | tempering maps 0 to 0 |
| Mt19937.LastWordOutputsZero | src/prng/mt19937.rs:62-74 | every output read from the last word is 0 |
| Mt19937.FreshGeneratorYieldsZero | src/prng/mt19937.rs:26-74 | the 624th number of a freshly seeded generator is 0, whatever the seed |
| Mt19937.InitWord | src/prng/mt19937.rs:44-50 | no contract of its own; the contract of `Mt19937.InitState` shows words 1 to 622 follow it |
| Mt19937.TwistWord | src/prng/mt19937.rs:52-58 | no contract of its own; `Mt19937.TwistKeepsLast` and the contract of `Mt19937.Mt19937Prng.Twist` show how the loop applies it |
| Mt19937.Temper | src/prng/mt19937.rs:62-74 | no contract of its own; `Mt19937.TemperZero` shows it maps 0 to 0, and the contract of `Mt19937.Next` shows each output is a tempered word |
| Matrices.Zeros | src/math/matrix.rs:16-22 | an h × w matrix of zeros |
| Matrices.Identity | src/math/matrix.rs:24-39 | an h × w matrix with 1 where row equals column and 0 elsewhere |
| Matrices.MarkRow | src/math/matrix.rs:27-32 | the inner loop puts the 1 of row y on the diagonal and keeps rows above it and the zeros below it |
| Matrices.New | src/math/matrix.rs:41-48 | accepted only when `w * h` equals the data length; the data is kept |
| Matrices.Row | src/math/matrix.rs:68-74 | the w entries of row y, in order |
| Matrices.At | src/math/matrix.rs:52-53 | no contract of its own; the contracts of `Matrices.Row` and `Matrices.Column` show entries are read at `x + y * w` |
| Matrices.Column | src/math/matrix.rs:76-82 | the h entries of column x, in order |
| Matrices.Others | src/math/matrix.rs:84-95 | the indices below k other than n, in order |
| Matrices.Cut | src/math/matrix.rs:84-95 | the matrix without row r and column c |
| Matrices.SubMatrix | src/math/matrix.rs:84-95 | `submatrix(n)` removes row n and column n |
| Matrices.IsIdentity | src/math/matrix.rs:50-61 | the row-by-row scan answers true exactly when every entry is within the margin of the identity's |
| Matrices.ApproxEq | src/math/matrix.rs:55-57 | no contract of its own; the contract of `Matrices.IsIdentity` and `Matrices.IdentityIsIdentity` show how the scan uses it |
| Matrices.IdentityIsIdentity | src/math/matrix.rs:225-236 | an exact identity passes `is_identity` |
| Matrices.ZerosAreNotIdentity | src/math/matrix.rs:225-236 | a non-empty matrix of zeros fails `is_identity` |
| Matrices.SumAbs | src/math/matrix.rs:63-66 | the fold of absolute values is non-negative |
| Matrices.SumAbsBounds | src/math/matrix.rs:63-66 | the fold is at least each entry's absolute value |
| Matrices.ZerosAreZero | src/math/matrix.rs:239-250 | zeros pass `is_zero`; a non-empty identity fails it |
| Matrices.IsZero | src/math/matrix.rs:63-66 | no contract of its own; `Matrices.ZerosAreZero` shows zeros pass and a non-empty identity fails |
| Matrices.Minor | src/math/matrix.rs:108-120 | the minor paired with entry n of row 0: `submatrix(n)` as written, or row 0 and column n removed under cofactor expansion |
| Matrices.ExpansionStep | src/math/matrix.rs:110-118 | one loop step skips a negligible entry and otherwise adds its signed product with its minor |
| Matrices.DetIsExpansion | src/math/matrix.rs:108-120 | from 4 × 4 on, the determinant is the full loop expansion |
| Matrices.Determinant | src/math/matrix.rs:97-122 | the closed forms and the accumulating loop compute the as-written determinant |
| Matrices.CutOfIdentity | src/math/matrix.rs:84-95 | removing the same row and column from an identity leaves an identity |
| Matrices.SmallDetOfIdentity | src/math/matrix.rs:99-107 | the 1 × 1, 2 × 2 and 3 × 3 closed forms give 1 on identities |
| Matrices.DetOfIdentity | src/math/matrix.rs:288-298 | the determinant of every identity is 1 under both schemes, as the tests expect |
| Matrices.DetOfZeros | src/math/matrix.rs:288-298 | the determinant of a matrix of zeros is 0 under both schemes |
| Matrices.DetOfTestMatrix3 | src/math/matrix.rs:300-308 | the tests' 3 × 3 matrix has determinant -306 under both schemes |
| Matrices.TestMatrix4 | src/math/matrix.rs:310-318 | the tests' 4 × 4 matrix is a valid 4 × 4 matrix |
| Matrices.DetOfTestMatrix4 | src/math/matrix.rs:310-318 | as written, `determinant` gives -52 on the tests' 4 × 4 matrix |
| Matrices.CofactorDetOfTestMatrix4 | src/math/matrix.rs:310-318 | cofactor expansion along row 0 gives the 17682 the test expects |
| Matrices.Add | src/math/matrix.rs:128-135 | entrywise sum, rebuilt with height and width swapped |
| Matrices.Sub | src/math/matrix.rs:137-144 | entrywise difference, rebuilt with height and width swapped |
| Matrices.AddSquare | src/math/matrix.rs:128-135 | on square matrices the sum is the entrywise sum at every position |
| Matrices.AddSwapsShape | src/math/matrix.rs:128-135 | a 2 × 3 sum comes back 3 × 2 |
| Matrices.SubAfterAdd | src/math/matrix.rs:128-144 | on square matrices, subtracting what was added gives the matrix back |
| Matrices.MulElementwise | src/math/matrix.rs:146-149 | no contract of its own; `Matrices.MulElementwiseUnit`, `Matrices.MulElementwiseZeros` and `Matrices.MulElementwiseThree` state the fold's value |
| Matrices.MulElementwiseUnit | src/math/matrix.rs:146-149 | a row times a unit column picks the entry at the unit's position |
| Matrices.MulElementwiseZeros | src/math/matrix.rs:146-149 | a row times a zero column is 0 |
| Matrices.MulElementwiseThree | src/math/matrix.rs:146-149 | the fold over three entries is the dot product |
| Matrices.Mul | src/math/matrix.rs:151-166 | every entry of the product is row y of the left factor times column x of the right, rebuilt as `new(data, rhs.w, self.h)` |
| Matrices.FillRow | src/math/matrix.rs:155-163 | the inner loop writes row y of the product, leaves the entries before it unchanged, so rows 0 to y all hold their product entries |
| Matrices.MulByIdentity | src/math/matrix.rs:253-274 | a matrix times an identity of its size keeps every entry |
| Matrices.MulVector | src/math/matrix.rs:168-180 | entry y of the product with a vector is row y times the vector's column |
| Matrices.MulVectorEntry | src/math/matrix.rs:168-180 | that entry is the linear combination of the row's entries with x, y, z |
| Matrices.FromVector | src/math/matrix.rs:199-207 | a vector becomes the column [x, y, z] |
| Matrices.ToVector | src/math/matrix.rs:209-218 | the conversion asserts a 1 × 1 matrix, then reads entries 1 and 2, so it always fails |
| Matrices.VectorRoundTripFails | src/math/matrix.rs:199-218 | a vector made a matrix does not convert back |
| Spectra.Zeros | src/spectrum/mod.rs:16-21 | N zeros |
| Spectra.ClampAll | src/spectrum/mod.rs:52-59 | every coefficient clamped, in place |
| Spectra.Plus | src/spectrum/mod.rs:84-91 | coefficientwise sum |
| Spectra.Minus | src/spectrum/mod.rs:102-109 | coefficientwise difference |
| Spectra.Times | src/spectrum/mod.rs:139-146 | coefficientwise product |
| Spectra.Over | src/spectrum/mod.rs:120-129 | coefficientwise quotient by non-zero coefficients |
| Spectra.Scale | src/spectrum/mod.rs:157-166 | every coefficient times the scalar |
| Spectra.Shrink | src/spectrum/mod.rs:131-137 | every coefficient over a non-zero scalar |
| Spectra.Negated | src/spectrum/mod.rs:194-203 | every coefficient negated |
| Spectra.Spectrum.constructor | src/spectrum/mod.rs:16-21 | a new spectrum has N zero coefficients |
| Spectra.Spectrum.Clone | src/spectrum/mod.rs:7 | a copy with its own storage and the same coefficients |
| Spectra.Spectrum.IsBlack | src/spectrum/mod.rs:24-31 | the scan answers true exactly when every coefficient is 0 |
| Spectra.Spectrum.Clamp | src/spectrum/mod.rs:52-59 | a fresh spectrum with every coefficient clamped into [min, max] |
| Spectra.Spectrum.MaxComponentValue | src/spectrum/mod.rs:62-70 | for at least one coefficient, the largest coefficient: an upper bound that is attained |
| Spectra.Spectrum.AddAssign | src/spectrum/mod.rs:84-91 | `+=` leaves the coefficientwise sum |
| Spectra.Spectrum.SubAssign | src/spectrum/mod.rs:102-109 | `-=` leaves the coefficientwise difference |
| Spectra.Spectrum.MulAssign | src/spectrum/mod.rs:139-146 | `*=` leaves the coefficientwise product |
| Spectra.Spectrum.DivAssign | src/spectrum/mod.rs:131-137 | `/=` by a non-zero scalar leaves every coefficient divided |
| Spectra.Spectrum.Add | src/spectrum/mod.rs:93-100 | a fresh spectrum holding the sum |
| Spectra.Spectrum.Sub | src/spectrum/mod.rs:111-118 | a fresh spectrum holding the difference |
| Spectra.Spectrum.Mul | src/spectrum/mod.rs:148-155 | a fresh spectrum holding the product |
| Spectra.Spectrum.Div | src/spectrum/mod.rs:120-129 | a fresh spectrum holding the quotient by a spectrum without zero coefficients |
| Spectra.Spectrum.MulScalar | src/spectrum/mod.rs:157-166 | a fresh spectrum scaled by the scalar |
| Spectra.Spectrum.DivScalar | src/spectrum/mod.rs:168-177 | a fresh spectrum divided by a non-zero scalar |
| Spectra.Spectrum.Neg | src/spectrum/mod.rs:194-203 | a fresh spectrum with every coefficient negated |
| Spectra.Spectrum.Eq | src/spectrum/mod.rs:180-187 | `eq` holds exactly when all coefficients agree |
| Spectra.Spectrum.Ne | src/spectrum/mod.rs:189-191 | `ne` holds exactly when some coefficient differs |
| Spectra.Spectrum.Y | src/spectrum/rgb.rs:10-13 | the luminance of a three-coefficient spectrum |
| Spectra.NewIsBlack | src/spectrum/mod.rs:16-31 | a new spectrum is black |
| Spectra.ClampBounds | src/spectrum/mod.rs:52-59 | clamping puts every coefficient in [min, max] and keeps those already there |
| Spectra.ClampIdempotent | src/spectrum/mod.rs:52-59 | clamping twice is clamping once |
| Spectra.NegNeg | src/spectrum/mod.rs:194-203 | negating twice gives the coefficients back |
| Spectra.SubUndoesAdd | src/spectrum/mod.rs:84-118 | subtracting what was added gives the coefficients back |
| Spectra.DivUndoesMul | src/spectrum/mod.rs:120-155 | dividing by what was multiplied in gives the coefficients back |
| Spectra.ShrinkUndoesScale | src/spectrum/mod.rs:157-177 | dividing by a scalar undoes scaling by it |
| Spectra.WeightsSumToOne | src/spectrum/rgb.rs:10-13 | the three luminance weights sum to exactly 1 |
| Spectra.Luminance | src/spectrum/rgb.rs:10-13 | no contract of its own; `Spectra.LuminanceOfGrey`, `Spectra.LuminanceLinear` and `Spectra.LuminanceNonNegative` state its properties |
| Spectra.LuminanceOfGrey | src/spectrum/rgb.rs:10-13 | a grey (k, k, k) has luminance k, and black has luminance 0 |
| Spectra.LuminanceLinear | src/spectrum/rgb.rs:10-13 | luminance is additive and commutes with scaling |
| Spectra.LuminanceNonNegative | src/spectrum/rgb.rs:10-13 | non-negative coefficients give non-negative luminance |
| Output.Unit | src/output/mod.rs:15-17 | the clamp into [0, 1] keeps values already there |
| Output.Channel | src/output/mod.rs:15-22 | the byte is the whole part of the clamped value times 255 |
| Output.NewColor | src/output/mod.rs:13-24 | each channel is quantised on its own |
| Output.ChannelSaturates | src/output/mod.rs:13-24 | inputs at or below 0 give 0 and at or above 1 give 255 |
| Output.ChannelMonotone | src/output/mod.rs:13-24 | a larger input never gives a smaller byte |
| Output.ChannelExact | src/output/mod.rs:13-24 | exact multiples of 1/255 come back as their numerator |
| Output.ChannelsIndependent | src/output/mod.rs:13-24 | each channel depends on its own input only |
| Output.LuminanceAgrees | src/output/mod.rs:28-31 | `rgb_to_luminance` agrees with the spectrum's luminance |
| Output.RgbToLuminance | src/output/mod.rs:28-31 | no contract of its own; `Output.LuminanceAgrees` shows it equals the spectrum's luminance |
| Ppm.Clamp | src/ppm.rs:8-10 | the result lies in [min, max] and a value already there is kept |
| Ppm.Decimal | src/ppm.rs:22 | the decimal digits of a size, with no leading zero |
| Ppm.DecimalRoundTrip | src/ppm.rs:22 | reading the digits back gives the number, so the header spells the true width and height |
| Ppm.Header | src/ppm.rs:22 | the header starts with "P6\n" and ends with "255\n" |
| Ppm.HeaderFields | src/ppm.rs:22 | the header is the magic number, width, space, height and maximum value, newline-separated |
| Ppm.RawPixels | src/ppm.rs:50-52 | three bytes per pixel |
| Ppm.RawPixelsLayout | src/ppm.rs:50-52 | pixel i sits at bytes 3i, 3i+1 and 3i+2 as r, g, b |
| Ppm.DumpPpmRaw | src/ppm.rs:44-57 | the buffer is the header followed by every pixel's three bytes |
| Ppm.GammaChannel | src/ppm.rs:27-33 | a gamma-corrected channel, clamped to 0.999 before scaling, is at most 254 |
| Ppm.GammaPixels | src/ppm.rs:26-36 | three bytes per pixel |
| Ppm.GammaPixelsBelowMax | src/ppm.rs:26-36 | no pixel byte `dump_ppm` writes reaches 255 |
| Ppm.DumpPpm | src/ppm.rs:14-41 | the buffer is the header followed by every pixel's three gamma-corrected bytes |

## Left out

- IEEE `f32` semantics are not modelled: rounding, NaN, infinities and overflow. Reals are
  used throughout.
- Rays.Reciprocal: the source caches an infinity for a zero direction component; the model
  stores 0 there, and the slab-test lemmas require non-zero components.
- The square root is a parameter. Vector `length` and `normalize` are computed through it;
  `normalize` of the zero vector returns the zero vector, where the source divides by zero.
  `near_zero` and the vector `Display`/`Debug` impls are not modelled. `Normal3::length` and
  `Normal3::normalize` (src/geometry/normal3.rs:38-44) and `Vector2::length`
  (src/geometry/vector2.rs:34-36) are square roots too and are not modelled.
- `in_range_f32` (crate utilities) is not part of this model. It is taken to be the
  inclusive test `t_min <= t <= t_max`.
- Matrices.IsIdentity: `approx_eq` is modelled with its absolute margin only; its
  units-in-the-last-place comparison has no meaning on reals.
- Matrices.SumAbs: `is_zero` is modelled as the fold of absolute values compared with
  `f32::EPSILON`; only the f32 rounding of the fold is not modelled.
- `has_nans`, `sqrt` and `powf` on spectra are not modelled. NaN does not exist on reals,
  and the square root is a parameter elsewhere.
- Spectra.Spectrum.AddAssign: the right-hand side is passed by value, a copy, as in the
  source (`CoefficientSpectrum` is `Copy`).
- File I/O is not modelled. `File::open`, the seek to byte 80 and `read_exact` become
  operations on a byte sequence, and the PPM writers return the buffer they would write.
  `Ppm.DumpPpm` takes the square root as a parameter, so the NaN that `f32::sqrt` gives for
  a negative channel is not modelled.
- Stl.LoadTrianglesFromStl: the triangle counter is a `nat`; the source's `u32` cannot
  overflow for any file shorter than 2³² records.
- Bvh.Partition: the two `filter` passes are modelled as one pass with the same result.
- Bvh.GenerateBvh: takes the scene's element list rather than the scene. The BVH depth and
  tree printing helpers (`get_depth`, `print_tree`) are not modelled.
- `BoundingVolume::intersect` (the older slab test, unused by the traversal) is not
  modelled; `intersect_mod` is.
- Scenes.NodeHitFindsEnclosed: completeness of the traversal is proved for hits strictly
  inside the window whose points lie inside the boxes above them. The IEEE corner cases of
  the slab test at its end points are not covered.
- `get_random_light`, `next_f32` and the random samplers of the utilities module
  (`random_in_unit_sphere` and similar, `refract`, the orthonormal basis) are not modelled.
  They only turn generator output into floats.
- The sphere's `random_point_on_surface` is not modelled; it is built from those samplers.
- Materials (`src/material.rs`) are not modelled beyond identity, `is_emissive` and
  `counts_as_light`. `scatter` is a parameter of the integrator.
- Not part of this model:
  - the camera, film, tone mappers, OpenEXR output and the Halton sequence;
  - shadow rays (`src/rtcore/shadow.rs`), the integrators, `main.rs` and the command line;
  - the plane object;
  - `src/geometry/vector3.rs` (the single `Vector.Vec3` stands for both vector types).
- Output.LuminanceAgrees: `rgb_to_luminance` takes the `vector3.rs` vector; the model passes
  it the single vector type.
- Source panics are preconditions in the model; the panicking input is outside the
  precondition instead of being an error value. One line per member follows.
- Matrices.New: the size `assert!` (src/math/matrix.rs:42) is a precondition.
- Matrices.Row: the `assert!` on the row index (src/math/matrix.rs:69) is a precondition.
- Matrices.Column: the `assert!` on the column index (src/math/matrix.rs:77) is a precondition.
- Matrices.Determinant: the square-matrix `assert!` (src/math/matrix.rs:98) is a precondition.
- Matrices.Add: the shape `assert!` (src/math/matrix.rs:131) is a precondition.
- Matrices.Sub: the shape `assert!` (src/math/matrix.rs:140) is a precondition.
- Matrices.MulElementwise: the equal-length `assert!` (src/math/matrix.rs:147) is a precondition.
- Matrices.Mul: the inner-dimension `assert!` (src/math/matrix.rs:154) is a precondition.
- Matrices.MulVector: the three-column `assert!` (src/math/matrix.rs:171) is a precondition.
- Scenes.Scene.Add: the `unwrap` of the added object's handle (src/scene.rs:27-45) is a
  precondition.
- Scenes.Scene.AddGeneric: the same `unwrap` (src/scene.rs:27-45) is a precondition.
- ScenePresets.TriangulateSquare: the four-point `assert!` (src/scenes.rs:5) is a precondition.
- Spectra.Spectrum.MaxComponentValue: the read of coefficient 0, which panics on an empty
  spectrum, is a precondition.
- BoundingVolumes.From: the read of `volumes[0]`, which panics on an empty list, is a
  precondition.
- Vector.FromHex: the length `assert!` (src/geometry/vector.rs:143) is a precondition.
- Vector.FromHex: the source measures a UTF-8 `&str` in bytes and slices it by byte offsets;
  the model takes ASCII strings only. Non-ASCII input is not modelled: "#ééé" is 7 bytes and
  gives (0, 0, 0), and a slice that cuts a character panics.
- Mt19937.Mt19937Prng.Init: the `u32` wrap-around of `val as u32 + i as u32` is modelled in
  `bv32`, which is release-build semantics; a debug build panics on that overflow instead. The 64-bit product is reduced with the mask exactly as written.

## Findings

| source | as written | input that shows it | evidently intended | confidence | as-written member | corrected member |
|---|---|---|---|---|---|---|
| src/math/matrix.rs:108-120 | for sizes from 4 × 4 on, entry n of row 0 is multiplied by the determinant of `submatrix(n)`, which removes row n and column n instead of row 0 and column n | the 4 × 4 test matrix [1, 2, 3, 4; 9, 22, 92, 1; 11, 34, 23, 67; 7, 0, 0, 0] gives -52 | cofactor expansion along row 0, which gives the 17682 the test at lines 310-318 expects; identities and zero matrices keep determinants 1 and 0 under both | not executed | Matrices.DetOfTestMatrix4 | Matrices.CofactorDetOfTestMatrix4 |

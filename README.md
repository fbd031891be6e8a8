# gill core, modelled in Dafny

gill is a small C++ ray tracer. This project models the parts of it that decide its structure
and that can be stated exactly, and proves properties of them:

- **kd-tree accelerator** (`src/core/kdtree.h`). The model covers:
  - the packed node encoding and the edge events with their order;
  - the recursive `build`: it sorts the edge events, sweeps them for the cheapest split under
    the surface-area heuristic, partitions the geometry into reused scratch buffers and lays
    the nodes out depth first;
  - the stack machine of `intersect`, which walks the tree near child first;
  - the field sequence that `save` writes and `load` reads back.
- **Value types**: vectors, points and normals (`include/core/vector.h`), rays
  (`src/core/ray.h`) and axis-aligned bounding boxes with the slab test (`include/core/bbox.h`).
- **Matrix and transform algebra**:
  - the 4x4 matrix with its in-place row-by-row products (`src/core/matrix.h`);
  - transforms as a matrix and its inverse, their application to vectors, points, normals,
    boxes and rays, and their products (`include/core/transform.h`);
  - the transform constructors and `compose` (`src/core/transform.cpp`,
    `lib/core/transform.cpp`).
- **Coefficient spectra** (`src/core/spectrum.h`): fixed-length coefficient arrays updated in
  place.
- **Film** (`src/core/film.h`): the pixel accumulation buffer with its 16x16 filter table.
- **Samplers** (`src/sampler/stratified.cpp`, `src/sampler/random.cpp`): the row-major pixel
  cursor that hands out one batch of samples per pixel.

Floats are modelled as mathematical reals. Where the code relies on the IEEE infinities (the
default box, the open range of the slab test, the "no hit yet" distance of traversal), the
model uses the extended reals `ExtReal`. Code that updates state in place is modelled by
classes and methods:

- the kd-tree's node and reference vectors;
- the film's pixel buffer;
- the sampler's cursor;
- the compound operators of vectors, boxes, matrices, transforms and spectra.

Geometry is abstract. A geometry is its bounding box, a hit function from a ray to an
optional distance, and a hit policy. This matches what the kd-tree template needs from
`Geom::bounds()` and `Geom::intersect()`. The policy says what `intersect` does with the
distance `t` it is handed, and the repository has both kinds:

- the triangle of `src/geometry/mesh.cpp` keeps only a strictly closer hit;
- the triangle of `src/core/mesh.cpp` overwrites `t` with any hit.

The traversal is stated for either policy. A leaf's distance is the nearest hit only when its
geometries keep closer hits.

The files, one module each:

| file | module | models |
|---|---|---|
| numeric.dfy | Numeric | extended reals, `almost_zero`, `std::min`/`max`, `floor`/`ceil` |
| vector.dfy | Vectors | `Vector`/`Point`/`Normal`, rays |
| bbox.dfy | Boxes | `BBox`, union, corners, the slab test |
| matrix.dfy | Matrices | `Matrix` |
| transform.dfy | Transforms | `Transform` and its constructors, `compose` |
| spectrum.dfy | Spectra | `CoefficientSpectrum`, `RGB` |
| film.dfy | Films | `Film` |
| sampler.dfy | Samplers | `StratifiedSampler`, `RandomSampler` |
| kdnode.dfy | KdNodes | kd-tree nodes, subtree layout, referenced geometry |
| kdedges.dfy | KdEdges | edge events, their order, sorting and classification |
| kdsplit.dfy | KdSplits | the split search of `build` |
| kdwalk.dfy | KdWalks | what `intersect` computes, as a recursive walk |
| kdfile.dfy | KdFiles | the `save`/`load` field sequence |
| kdtree.dfy | KdTrees | the `KdTree` class: `build`, the constructor, `intersect`, `save`, `load` |

## Model

| member | source | states |
|---|---|---|
| Numeric.LeTotalOrder | include/core/bbox.h:46-56 | the comparisons of the slab test and of traversal, extended to the infinities, form a total order |
| Numeric.Times | include/core/bbox.h:43-45 | multiplying by the reciprocal of a direction component keeps a value finite exactly when it was finite |
| Numeric.Floor | src/core/film.h:52-55 | `floor` cast to int is the greatest integer not above its argument |
| Numeric.Ceil | src/core/film.h:52-55 | `ceil` cast to int is the least integer not below its argument |
| Numeric.MinI | src/core/film.h:52-55 | `std::min` on ints is below both arguments and equals one of them |
| Numeric.MaxI | src/core/film.h:52-55 | `std::max` on ints is above both arguments and equals one of them |
| Vectors.Neg | include/core/vector.h:22-25 | `-v` added to `v` gives the zero vector |
| Vectors.NegInvolutive | include/core/vector.h:22-25 | `-(-v) == v`, and `-v` is `v * -1` |
| Vectors.Equal | include/core/vector.h:27-30 | `==` holds exactly when the two values are identical |
| Vectors.NotEqual | include/core/vector.h:32-35 | `!=` is exactly the negation of `==` |
| Vectors.Div | include/core/vector.h:47-50 | for `c != 0`, `v / c` scaled back by `c` gives `v` |
| Vectors.DivByScale | include/core/vector.h:47-50 | `v / c == v * (1 / c)` and `(v * c) / c == v` for `c != 0` |
| Vectors.DotSymmetric | include/core/vector.h:57-60 | `dot` is symmetric, and `dot(v, v)` is non-negative |
| Vectors.AbsDot | include/core/vector.h:62-65 | `abs_dot` is non-negative and equals `dot` or its negation |
| Vectors.Cross | include/core/vector.h:67-70 | the cross product is perpendicular to both operands |
| Vectors.MinV | include/core/vector.h:103-106 | on each axis, `min` is below both operands and equals one of them |
| Vectors.MaxV | include/core/vector.h:108-111 | on each axis, `max` is above both operands and equals one of them |
| Vectors.Sub | include/core/vector.h:133-135 | subtraction undoes addition: `(a - b) + b == a` |
| Vectors.PointVectorRoundTrip | include/core/vector.h:159-173 | `(p + v) - v == p`, `(p - v) + v == p` and `p - p` is the zero vector |
| Vectors.ReflectFormula | include/core/vector.h:141-143 | `reflect(v, n)` equals `v - 2 (n . v) n` |
| Vectors.ReflectFlipsNormalComponent | include/core/vector.h:141-143 | for a unit normal, reflection negates the component of `v` along the normal |
| Vectors.ReflectAboutY | include/core/vector.h:141-143 | reflecting about the normal (0, 1, 0) negates only the y component |
| Vectors.ReflectTestValue | test/core/vector.cpp:101-105 | `reflect((1, -1, 1), (0, 1, 0)) == (1, 1, 1)` |
| Vectors.DotCrossTestValues | test/core/vector.cpp:78-88 | `dot((1,2,3),(4,5,6)) == 32` and `cross((1,2,3),(4,5,6)) == (-3,6,-3)` |
| Vectors.MinMaxTestValues | test/core/vector.cpp:40-45 | the componentwise `min` and `max` of the test's two vectors |
| Vectors.With | src/core/kdtree.h:190-193 | writing coordinate `i` of a corner, as `bounds_below.max[best_axis] = split` does, changes that coordinate and no other |
| Vectors.RayAt | src/core/ray.h:17 | `ray(t)` is `o + t d` on every axis |
| Vectors.VecCell.constructor | include/core/vector.h:119 | the new variable holds the given components |
| Vectors.VecCell.MulAssign | include/core/vector.h:42-45 | `v *= c` leaves `v` equal to `v * c` |
| Vectors.VecCell.DivAssign | include/core/vector.h:52-55 | `v /= c` leaves `v` equal to `v / c` |
| Vectors.VecCell.AddAssign | include/core/vector.h:129-131 | `v += w` leaves `v` equal to `v + w` |
| Vectors.VecCell.SubAssign | include/core/vector.h:137-139 | `v -= w` leaves `v` equal to `v - w` |
| Boxes.FromPoint | include/core/bbox.h:18 | `BBox(p)` is proper and contains exactly `p` |
| Boxes.FromPoints | include/core/bbox.h:19-22 | `BBox(p1, p2)` is proper, contains both points, and on each axis its `min` is the smaller and its `max` the larger of the two coordinates |
| Boxes.FromPointsSmallest | include/core/bbox.h:19-22 | `BBox(p1, p2)` is the smallest box holding both points: a box containing them contains all of it |
| Boxes.FromPointsSymmetric | include/core/bbox.h:19-22 | `BBox(p1, p2) == BBox(p2, p1)` |
| Boxes.Contains | include/core/bbox.h:24-27 | `contains(p)` holds iff every coordinate of `p` lies between `min` and `max`, inclusive, with the default box's infinities |
| Boxes.Merge | include/core/bbox.h:86-89 | `+=` takes the smaller `min` and the larger `max` on every axis |
| Boxes.Reorder | include/core/bbox.h:82-84 | re-ordering the corners through the two-point constructor leaves a proper box unchanged and always gives a proper box from a finite one |
| Boxes.AddPointToEmpty | include/core/bbox.h:95-98 | adding `p` to the default box gives `BBox(p)`, with `+` and with `+=` |
| Boxes.UnionContainsOperands | include/core/bbox.h:82-89 | `b1 + b2` and `b1 += b2` contain every point of either operand |
| Boxes.UnionOfProperBoxes | include/core/bbox.h:82-89 | for proper boxes, `b1 + b2` and `b1 += b2` agree and give a proper box |
| Boxes.AddContainedPoint | include/core/bbox.h:91-98 | adding a point the box already contains changes nothing |
| Boxes.Expanded | include/core/bbox.h:63-66 | `expand(delta)` moves each coordinate of a finite box's `min` down and of its `max` up by `delta`, leaves the default box and the unbounded box unchanged, and for `delta >= 0` keeps every contained point |
| Boxes.BoxEqual | include/core/bbox.h:74-76 | `==` on boxes holds exactly when the boxes are identical |
| Boxes.BoxNotEqual | include/core/bbox.h:78-80 | `!=` on boxes is exactly the negation of `==` |
| Boxes.Corner | include/core/bbox.h:68-71 | corner `i` takes `max` on axis `k` iff bit `k` of `i` is set |
| Boxes.CornerContained | include/core/bbox.h:68-71 | every corner of a proper box lies in the box |
| Boxes.CornersRebuildBox | include/core/transform.h:84-96 | merging the eight corners into the default box rebuilds a proper box exactly |
| Boxes.BoxTestValues | test/core/bbox.cpp:6-44 | the test box [-1, 1]^3 has the test's surface 24, volume 8 and corners, and the test's union |
| Boxes.UnionOfEmptiesIsUnbounded | include/core/bbox.h:82-84 | as written, the sum of two default boxes is the infinite box, which contains every point |
| Boxes.MergeHasEmptyIdentity | include/core/bbox.h:86-89 | the in-place `+=` keeps the default box as identity on both sides |
| Boxes.Intersects | include/core/bbox.h:29-61 | the loop of `intersects` reports a hit, with its range, exactly as the slab test over the three axes does |
| Boxes.SlabHitRange | include/core/bbox.h:29-61 | whenever `intersects` returns true, `0 <= tmin <= tmax` and `tmin` is finite |
| Boxes.SlabTestExact | include/core/bbox.h:29-61 | for a proper box, `t` lies in the reported range iff `t >= 0` and the ray point at `t` is inside every slab (the origin, on axes almost parallel to the ray) |
| Boxes.SlabStepExact | include/core/bbox.h:33-57 | one axis of the loop narrows the range to exactly the parameters whose ray point lies in that axis's slab |
| Boxes.SlabStepOfBox | include/core/bbox.h:43-57 | on an axis not parallel to the ray, one step intersects the range with the slab's entry and exit parameters |
| Boxes.SlabBetween | include/core/bbox.h:43-48 | `t` lies between the two slab parameters iff `ro + t rd` lies between `bmin` and `bmax` |
| Boxes.SlabTestOfEmpty | include/core/bbox.h:17 | the default box is hit, with range `[0, +inf]`, by every ray with no almost-zero direction component, and missed by every other ray |
| Boxes.BoxCell.constructor | include/core/bbox.h:14-22 | the new variable holds the given box |
| Boxes.BoxCell.AddBox | include/core/bbox.h:86-89 | `b1 += b2` stores the merge of the two boxes |
| Boxes.BoxCell.AddPointAssign | include/core/bbox.h:95-98 | `b += p` stores the merge with `BBox(p)`, then contains `p` and every point it contained before |
| Boxes.BoxCell.Expand | include/core/bbox.h:63-66 | `expand(delta)` stores the expanded box, each bound of a finite box moved out by `delta` |
| Matrices.Fill | src/core/matrix.h:11-15 | `Matrix(value)` has all sixteen entries equal to `value` |
| Matrices.Identity | src/core/matrix.h:26-31 | `Identity` has ones on the diagonal and zeros elsewhere |
| Matrices.MatEqual | src/core/matrix.h:46-51 | `==` holds exactly when all sixteen entries, hence the matrices, are equal |
| Matrices.MatNotEqual | src/core/matrix.h:53-58 | `!=` is exactly the negation of `==` |
| Matrices.RowTimes | src/core/matrix.h:60-79 | each entry of a row of the product is the row dotted with a column of the right operand |
| Matrices.Mul | src/core/matrix.h:60-79 | row `i` of `lhs * rhs` is row `i` of `lhs` times `rhs` |
| Matrices.MulEntry | src/core/matrix.h:60-79 | entry (i, j) of a product is row i of `lhs` dotted with column j of `rhs` |
| Matrices.IdentityNeutral | src/core/matrix.h:60-79 | `Identity` is neutral for the product on both sides |
| Matrices.DiagonalProduct | src/core/matrix.h:60-79 | the product of diagonal matrices is diagonal, with the elementwise products |
| Matrices.HomMul | src/core/matrix.h:60-79 | a product applied to a homogeneous vector applies its right operand first |
| Matrices.HomDetermines | src/core/matrix.h:60-79 | a matrix is determined by its images of the four unit vectors |
| Matrices.MulAssociative | src/core/matrix.h:60-79 | the matrix product is associative |
| Matrices.MulScalar | src/core/matrix.h:105-112 | `lhs * c` scales every row by `c` |
| Matrices.DiagonalScaled | src/core/matrix.h:105-112 | a diagonal matrix times `c` is the diagonal of the scaled entries |
| Matrices.ScalarTestValue | test/core/matrix.cpp:13-30 | the test's diagonal matrix times 0.5 is the test's expected matrix |
| Matrices.Transpose | src/core/matrix.h:121-128 | rows of `transpose(m)` are the columns of `m` and columns are its rows |
| Matrices.TransposeSwapsEntries | src/core/matrix.h:121-128 | entry (i, j) of `transpose(m)` is entry (j, i) of `m` |
| Matrices.TransposeInvolutive | src/core/matrix.h:121-128 | `transpose(transpose(m)) == m`, and `Identity` is its own transpose |
| Matrices.TransposeOfProduct | src/core/matrix.h:121-128 | transposition reverses products |
| Matrices.TransposeTestValue | test/core/matrix.cpp:56-70 | the transpose of the test's matrix is the test's expected matrix |
| Matrices.CompareTestValue | test/core/matrix.cpp:6-11 | `Identity == Identity`, and changing `m33` makes them differ |
| Matrices.WithRow | src/core/matrix.h:87 | storing `tmp` into row `i` changes that row and no other |
| Matrices.SquareInPlaceDiffers | src/core/matrix.h:81-103 | as written, `m *= m` differs from `m * m` for a matrix that swaps the first two coordinates |
| Matrices.MatrixCell.constructor | src/core/matrix.h:16-23 | the new variable holds the given matrix |
| Matrices.MatrixCell.MulScalarAssign | src/core/matrix.h:114-119 | `lhs *= c` leaves `lhs` equal to `lhs * c` |
| Matrices.MatrixCell.MulAssign | src/core/matrix.h:81-103 | as written, `lhs *= rhs` leaves `lhs * rhs` for a distinct `rhs`, and the row-by-row self product when `rhs` is `lhs` |
| Matrices.MatrixCell.MulAssignFromCopy | src/core/matrix.h:81-103 | with `rhs` read before any row is stored, `lhs *= rhs` leaves `lhs * rhs` even when both are the same matrix |
| Transforms.ApplyVectorHom | include/core/transform.h:33-39 | a vector is transformed as the homogeneous direction with `w = 0`, so the translation column takes no part |
| Transforms.ApplyPointHom | include/core/transform.h:48-57 | a point's image, scaled back by the asserted non-zero `w`, is its homogeneous image |
| Transforms.ApplyNormal | include/core/transform.h:69-75 | a normal goes through the transpose of `_inv` |
| Transforms.NormalKeepsDot | include/core/transform.h:69-75 | when `_inv` undoes an affine `_m`, a transformed normal has the same dot product with a transformed vector as the originals |
| Transforms.CornerImages | include/core/transform.h:84-95 | merging the images of the first k corners into the default box gives a proper box that holds each image, each of whose bounds is a coordinate of one of them |
| Transforms.ApplyBBox | include/core/transform.h:84-96 | a transformed box is the smallest box holding the images of the eight corners |
| Transforms.ApplyBBoxOfCornerMap | include/core/transform.h:84-96 | when each corner maps onto the same corner of a proper box `c`, the transformed box is exactly `c` |
| Transforms.ApplyRayAlong | include/core/transform.h:98-100 | under an affine transform, the image of the point at `s` along a ray is the point at `s` along the transformed ray |
| Transforms.AxisLengths | include/core/transform.h:102-107 | `has_scale` holds iff some transformed unit axis has a squared length outside [0.99, 1.01] |
| Transforms.TranslateHasNoScale | include/core/transform.h:102-107 | a translation has no scale |
| Transforms.ScaleHasScale | include/core/transform.h:102-107 | a scale has a scale iff some squared factor lies outside [0.99, 1.01] |
| Transforms.TEq | include/core/transform.h:110-112 | `==` compares only the matrices, not the stored inverses |
| Transforms.TNotEq | include/core/transform.h:114-116 | `!=` is exactly the negation of `==` |
| Transforms.InverseInvolutive | include/core/transform.h:118-120 | `inverse(inverse(t)) == t`, and the inverse of a consistent pair is consistent |
| Transforms.InverseOfProduct | include/core/transform.h:118-124 | the inverse of a product is the product of the inverses in reverse order |
| Transforms.ProductConsistent | include/core/transform.h:122-124 | the product of consistent transforms stores the true inverse of its matrix |
| Transforms.ProductAffine | include/core/transform.h:122-124 | the product of affine matrices is affine |
| Transforms.AffinePoint | include/core/transform.h:48-57 | under an affine matrix a point keeps `w = 1`, and its image is the homogeneous image |
| Transforms.AffineApplyPoint | include/core/transform.h:48-57 | under an affine matrix a point is mapped linearly and then moved by the last column |
| Transforms.ProductAppliesRightFirst | include/core/transform.h:122-124 | `(a * b)(p) == a(b(p))`: the right operand is applied first |
| Transforms.ProductAppliesRightFirstToVectors | include/core/transform.h:122-124 | the same for vectors |
| Transforms.InverseUndoesPoint | include/core/transform.h:118-120 | a consistent affine transform and its inverse undo each other on points |
| Transforms.Translate | src/core/transform.cpp:22-36 | a translation is affine in both matrices and has the deltas in the last column of `_m` |
| Transforms.TranslatePoint | lib/core/transform.cpp:9-23 | a translation moves every point by the deltas |
| Transforms.TranslateDirections | lib/core/transform.cpp:9-23 | a translation leaves vectors and normals unchanged |
| Transforms.TranslateConsistent | src/core/transform.cpp:22-36 | a translation's stored inverse is its inverse |
| Transforms.TranslateBy | src/core/transform.cpp:18-20 | the vector overload of `translate` puts the vector's components in the last column |
| Transforms.TranslateInverse | lib/core/transform.cpp:9-23 | the inverse of a translation is the translation by the negated deltas |
| Transforms.ScaleT | src/core/transform.cpp:42-56 | a scale with non-zero factors is affine in both matrices and has the diagonal `(sx, sy, sz, 1)` |
| Transforms.ScalePoint | lib/core/transform.cpp:29-43 | a scale multiplies every point by the factors |
| Transforms.ScaleDirections | lib/core/transform.cpp:29-43 | a scale multiplies vectors by the factors and divides normals by them |
| Transforms.ScaleConsistent | src/core/transform.cpp:42-56 | a scale's stored inverse is its inverse |
| Transforms.ScaleBy | src/core/transform.cpp:38-40 | the vector overload of `scale` uses the vector's components as factors |
| Transforms.Rotate | src/core/transform.cpp:58-72 | a rotation stores the transpose of its matrix as its inverse and keeps the identity's last row and column |
| Transforms.RotateByZero | src/core/transform.cpp:58-72 | a rotation by the zero angle about any axis is the identity pair |
| Transforms.RotateAboutZ | src/core/transform.cpp:58-72 | a rotation about the z axis turns the x-y plane by the angle and keeps z |
| Transforms.CoordSys | src/core/transform.cpp:8-16 | `coord_sys` is affine, maps the unit axes onto `right`, `up` and `front`, and fixes the origin |
| Transforms.LookAt | src/core/transform.cpp:74-89 | `look_at` throws exactly when `cross(normalize(up), dir)` is zero; otherwise it maps the origin to `pos` and the z axis to the view direction |
| Transforms.TranslateBox | include/core/transform.h:84-96 | a translated proper box is the box moved by the deltas |
| Transforms.ScaleBox | include/core/transform.h:84-96 | a proper box scaled by positive factors has both corners scaled |
| Transforms.CompareTestValue | test/core/transform.cpp:6-10 | `Scale(1, 1, 1)` equals the identity pair |
| Transforms.InverseTestValue | test/core/transform.cpp:100-104 | `inverse(Translate(-1, 1, 0)) == Translate(1, -1, 0)` |
| Transforms.ApplyTestValues | test/core/transform.cpp:12-55 | the test's translation of a vector, a point and a normal |
| Transforms.TranslateBoxTestValue | test/core/transform.cpp:80-84 | `Translate(1, 2, 3)` of the box [-1, 1]^3 is the test's box |
| Transforms.ScaleBoxTestValue | test/core/transform.cpp:86-90 | `Scale(1, 2, 3)` of the box [-1, 1]^3 is the test's box |
| Transforms.ScaleAfterTranslate | test/core/transform.cpp:92-98 | `Scale(k, k, k) * Translate(d)` translates first and then scales |
| Transforms.ApplyVectorInPlace | include/core/transform.h:41-46 | `xform(&v)` leaves `v` equal to `xform(v)` |
| Transforms.ApplyPointInPlace | include/core/transform.h:59-67 | `xform(&p)` leaves `p` equal to `xform(p)` |
| Transforms.ApplyNormalInPlace | include/core/transform.h:77-82 | `xform(&n)` leaves `n` equal to `xform(n)` |
| Transforms.TransformCell.constructor | include/core/transform.h:19 | the new transform holds the given pair, in two distinct matrices |
| Transforms.TransformCell.MulAssign | include/core/transform.h:126-129 | for a distinct `rhs`, `lhs *= rhs` leaves `lhs * rhs`; for `t *= t` the matrix is the row-by-row self product |
| Transforms.Compose | src/core/transform.cpp:111-120 | the two loops of `compose` leave `m = m_{n-1} ... m_0` and `inv = inv_0 ... inv_{n-1}` |
| Transforms.ComposeEmpty | src/core/transform.cpp:111-120 | composing nothing gives the identity pair |
| Transforms.ComposeAppend | src/core/transform.cpp:111-120 | appending a transform to the list multiplies it on the left, so it is applied last |
| Transforms.ComposeSingle | src/core/transform.cpp:111-120 | composing one transform gives that transform |
| Transforms.ComposeConsistent | src/core/transform.cpp:111-120 | composing consistent transforms gives a consistent transform |
| Transforms.ComposeAppliesInOrder | src/core/transform.cpp:111-120 | the composition of affine transforms applies them in list order, the first one first |
| Spectra.CoefficientSpectrum.constructor | src/core/spectrum.h:18-22 | every one of the `num_coefs` coefficients is set to `v` |
| Spectra.CoefficientSpectrum.CopyOf | src/core/spectrum.h:43 | the copy has the same coefficients as the original, in a new array |
| Spectra.CoefficientSpectrum.Rgb | src/core/spectrum.h:170-172 | `RGB(r, g, b)` stores r, g and b in coefficients 0, 1 and 2 |
| Spectra.CoefficientSpectrum.Equals | src/core/spectrum.h:24-31 | `==` holds iff all coefficients are equal |
| Spectra.CoefficientSpectrum.NotEquals | src/core/spectrum.h:33-35 | `!=` holds iff some coefficient differs |
| Spectra.CoefficientSpectrum.AddAssign | src/core/spectrum.h:37-40 | `+=` adds the right-hand coefficients elementwise, also when `rhs` is the spectrum itself |
| Spectra.CoefficientSpectrum.Plus | src/core/spectrum.h:42-45 | `+` gives a new spectrum with the elementwise sums |
| Spectra.CoefficientSpectrum.SubAssign | src/core/spectrum.h:47-50 | `-=` subtracts elementwise |
| Spectra.CoefficientSpectrum.Minus | src/core/spectrum.h:52-55 | `-` gives a new spectrum with the elementwise differences |
| Spectra.CoefficientSpectrum.ScaleAssign | src/core/spectrum.h:57-60 | `*=` by a float multiplies every coefficient |
| Spectra.CoefficientSpectrum.Scaled | src/core/spectrum.h:62-65 | `*` by a float gives a new, scaled spectrum |
| Spectra.CoefficientSpectrum.ShrinkAssign | src/core/spectrum.h:67-70 | `/=` by a non-zero float divides every coefficient |
| Spectra.CoefficientSpectrum.Shrunk | src/core/spectrum.h:72-75 | `/` by a non-zero float gives a new, divided spectrum |
| Spectra.CoefficientSpectrum.MulAssign | src/core/spectrum.h:77-80 | `*=` by a spectrum multiplies elementwise |
| Spectra.CoefficientSpectrum.Times | src/core/spectrum.h:82-85 | `*` by a spectrum gives the elementwise products |
| Spectra.CoefficientSpectrum.DivAssign | src/core/spectrum.h:87-90 | `/=` by a spectrum without zero coefficients divides elementwise |
| Spectra.CoefficientSpectrum.Over | src/core/spectrum.h:92-95 | `/` by such a spectrum gives the elementwise quotients |
| Spectra.CoefficientSpectrum.SetCoef | src/core/spectrum.h:97-100 | storing through `operator[]` with `0 <= i < num_coefs` changes coefficient `i` only |
| Spectra.CoefficientSpectrum.Coef | src/core/spectrum.h:102-105 | reading `operator[]` with `0 <= i < num_coefs` gives coefficient `i` |
| Spectra.CoefficientSpectrum.IsBlack | src/core/spectrum.h:107-114 | `is_black` holds iff every coefficient is zero |
| Spectra.CoefficientSpectrum.Clamp | src/core/spectrum.h:116-122 | `clamp` gives a new spectrum with each coefficient `min(max(c, lo), hi)` |
| Spectra.AddThenSub | src/core/spectrum.h:37-50 | `-=` by a spectrum undoes `+=` by it |
| Spectra.AddCommutes | src/core/spectrum.h:42-45 | `a + b == b + a` |
| Spectra.MulThenDiv | src/core/spectrum.h:77-90 | `/=` by a spectrum without zeros undoes `*=` by it |
| Spectra.ScaleThenShrink | src/core/spectrum.h:57-70 | `/=` by a non-zero float undoes `*=` by it |
| Spectra.ClampInRange | src/core/spectrum.h:116-122 | with `lo <= hi` every clamped coefficient lies in `[lo, hi]`, and one already inside is kept |
| Spectra.ClampIdempotent | src/core/spectrum.h:116-122 | clamping twice to the same range is clamping once |
| Spectra.ClampInvertedRange | src/core/spectrum.h:116-122 | with `hi < lo` every coefficient becomes `hi`, since the `min` is applied last |
| Spectra.BlackClosure | src/core/spectrum.h:57-60 | a spectrum scaled by zero is black, and the sum of two black spectra is black |
| Spectra.SelfDifferenceIsBlack | src/core/spectrum.h:52-55 | `s - s` is black |
| Films.RowStartIsProduct | src/core/film.h:66 | the start of row `y` of a row-major buffer is `y * xres` |
| Films.PixelIndexInImage | src/core/film.h:66 | for `0 <= x < xres` and `0 <= y < yres` the index `y * xres + x` lies in `[0, xres * yres)` |
| Films.PixelIndexInjective | src/core/film.h:66 | two pixels of the image share an index iff they are the same pixel |
| Films.FilterIndex | src/core/film.h:62-64 | the filter-table row or column is at most 15, and at least 0 when the filter's reciprocal width or height is non-negative |
| Films.SampleSpan | src/core/film.h:52-55 | the clamped window starts at 0 or later and ends at `res - 1` or earlier |
| Films.PixelValue | src/core/film.h:73-81 | black when the weight is almost zero, otherwise the radiance divided by the weight and clamped to `[0, 1]`; every coefficient lies in `[0, 1]` |
| Films.Film.GetPixel | src/core/film.h:73-81 | reading an in-image pixel gives three coefficients in `[0, 1]` |
| Films.FillFilterTable | src/core/film.h:37-46 | the running index fills all 256 entries, entry `i` with the filter at cell `(i % 16, i / 16)` |
| Films.NewPixels | src/core/film.h:35 | `new Pixel[n]` gives `n` black pixels with the given leftover weights |
| Films.Film.constructor | src/core/film.h:32-47 | the film as written: `_xdim` is 2, `_ydim` uses the integer ratio, every pixel is black with a leftover weight, and the filter table is filled row-major |
| Films.Film.Corrected | src/core/film.h:32-47 | the film as intended: every weight 0, and `_ydim` keeps the aspect ratio |
| Films.Film.Splat | src/core/film.h:62-68 | one pixel of the window gains `radiance * weight` and `weight`, and no other pixel changes |
| Films.Film.AddSample | src/core/film.h:49-71 | every pixel in the clamped window gains the weighted radiance and the weight, and every other pixel is unchanged; an empty window changes nothing |
| Films.Film.InWindow | src/core/film.h:52-55 | a pixel is in a sample's window iff it lies in both clamped spans |
| Films.LandscapeFilmIsFlat | src/core/film.h:34 | with fewer rows than columns the as-written film height is 0 |
| Films.FilmHeightExact | src/core/film.h:34 | the corrected height keeps `ydim / xdim == yres / xres`, and is positive for a non-empty image |
| Films.UninitialisedWeightSkews | src/core/film.h:35 | a pixel left with weight 1 by `new Pixel[n]` reads 0.25 after a single sample of radiance 0.5 |
| Films.OneSampleRecovered | src/core/film.h:66-79 | from a cleared pixel, one sample with a usable weight and a radiance in `[0, 1]` reads back as that radiance |
| Samplers.Next | src/sampler/stratified.cpp:31-35 | the cursor moves to the next column, or to the first column of the next row once the last column is passed |
| Samplers.BatchesFromCount | src/sampler/stratified.cpp:19-37 | from a cursor inside the window, one batch is left per remaining pixel of the row and of each later row |
| Samplers.AllPixelsVisited | src/sampler/stratified.cpp:11-37 | from the start of a non-empty window there are exactly `(x_max - x_min + 1) * (y_max - y_min + 1)` batches |
| Samplers.PixelSampler.Stratified | src/sampler/stratified.cpp:11-15 | the cursor starts at `(x_min, y_min)` |
| Samplers.PixelSampler.Random | src/sampler/random.cpp:8-12 | the cursor starts at `(x_min, y_min)` |
| Samplers.PixelSampler.MaxBatchSize | src/sampler/stratified.cpp:17 | `max_batch_size()` is `spp`, the size every non-empty batch of GetSampleBatch has and the room it needs in `samples` |
| Samplers.PixelSampler.GetSampleBatch | src/sampler/stratified.cpp:19-38 | it returns 0 or `max_batch_size()` and writes no sample at or past `max_batch_size()`; past the last row it returns 0 and changes nothing; otherwise it writes `samples[0 .. spp)` from the draws, keeps the rest, advances the cursor row-major and returns `spp` |
| Samplers.PixelSampler.GetSubsampler | src/sampler/random.cpp:37-41 | the sub-sampler is of the same kind, with the same `spp`, and starts at the first pixel of its window |
| Samplers.CountBatches | src/sampler/stratified.cpp:19-37 | requesting batches until one is empty yields exactly one non-empty batch per pixel of a non-empty window |
| KdNodes.SplitAxis | src/core/kdtree.h:39-45 | the axis is the two low header bits, and the node is a leaf iff they are 3 |
| KdNodes.HeaderIndex | src/core/kdtree.h:47-49 | the index is the 30 high bits, below `2^30` |
| KdNodes.Header | src/core/kdtree.h:83 | `tag \| (index << 2)` keeps the tag in the low bits and the index modulo `2^30` above them |
| KdNodes.LeafNode | src/core/kdtree.h:79-86 | a leaf node is a leaf, carries the geometry count, and decodes to the first reference's index when that is below `2^30` |
| KdNodes.InternalNode | src/core/kdtree.h:88-93 | an internal node is not a leaf, decodes to its axis, its split and, below `2^30`, its front child |
| KdNodes.SubtreeFrame | src/core/kdtree.h:104-109 | a subtree's validity depends only on its own nodes, and survives appended references |
| KdNodes.SubtreeTaller | src/core/kdtree.h:106 | a subtree within a height bound is within every larger bound |
| KdNodes.Members | src/core/kdtree.h:81 | the set of ids of a list of references holds exactly the listed ids |
| KdNodes.ReferencedFrame | src/core/kdtree.h:104-109 | appending nodes after a subtree, changing nodes before it, or appending references changes neither its validity nor the ids its leaves reference |
| KdNodes.LeafReferenced | src/core/kdtree.h:79-86 | a leaf appended with its ids appended to `geom_refs` is a one-node subtree referencing exactly those ids |
| KdNodes.JoinSubtrees | src/core/kdtree.h:194-199 | an internal node patched before a below subtree that ends where the above subtree starts is one subtree, referencing what its children reference |
| KdEdges.LessIsStrictWeakOrder | src/core/kdtree.h:65-71 | `Edge::operator<` is irreflexive, asymmetric, transitive, and has a transitive incomparability, as `std::sort` requires |
| KdEdges.LessTies | src/core/kdtree.h:65-71 | two events are incomparable iff they share position and kind |
| KdEdges.StartBeforeEnd | src/core/kdtree.h:65-71 | a geometry's START event sorts strictly before its own END event, also when the box is flat on the axis |
| KdEdges.EdgeList | src/core/kdtree.h:128-133 | the events of `n` geometries are `2n` |
| KdEdges.EdgeListAt | src/core/kdtree.h:128-133 | in the prepared list geometry `i`'s START is at `2i` and its END at `2i + 1` |
| KdEdges.EdgeBagOfList | src/core/kdtree.h:128-133 | the prepared list holds, in some order, exactly one START and one END event per geometry |
| KdEdges.PrepareEdges | src/core/kdtree.h:128-133 | the preparation loop writes exactly that list into the first `2n` slots and nothing else |
| KdEdges.EdgeListByIndex | src/core/kdtree.h:128-133 | a sequence holding each geometry's START and END events at positions `2i` and `2i + 1` is exactly the event list the loop prepares |
| KdEdges.SortEdges | src/core/kdtree.h:134 | `std::sort` leaves the first `len` events sorted and a permutation of what they were, and the rest untouched |
| KdEdges.InsertEdge | src/core/kdtree.h:134 | one insertion pass extends the sorted prefix by one element and keeps the multiset |
| KdEdges.IdsOfConcat | src/core/kdtree.h:176-187 | the START and END ids of two concatenated event lists are the concatenated ids |
| KdEdges.IdsMembership | src/core/kdtree.h:176-187 | an id is listed iff an event of that kind carries it |
| KdEdges.CountsOfPermutation | src/core/kdtree.h:134 | reordering events does not change how many START and END events there are |
| KdEdges.CountsOfEdgeList | src/core/kdtree.h:128-133 | the prepared list has one START and one END per geometry |
| KdEdges.EdgeListIds | src/core/kdtree.h:128-133 | every prepared event carries one of the geometry ids |
| KdEdges.CountsAreIds | src/core/kdtree.h:137-159 | the running counts of START and END events are the lengths of the id lists the classification collects |
| KdEdges.NoCheaperStep | src/core/kdtree.h:150-154 | a bound of the first `i` candidates lowered to the cost of candidate `i` bounds the first `i + 1` |
| KdEdges.CheaperThanBound | src/core/kdtree.h:150 | a cost strictly below a bound of the first `i` candidates is strictly below each of them |
| KdEdges.SweptStep | src/core/kdtree.h:139-159 | one event of the sweep keeps the sweep state, moving the best to the event iff its cost is strictly lower |
| KdEdges.Sweep | src/core/kdtree.h:137-159 | before event `i`, `num_below` counts the START events before `i` and `num_above` is `n` less the END events up to and including `i`; the best is never worse than the incoming best or any candidate strictly inside the node, and when it improves it is the first cheapest candidate |
| KdEdges.CollectBelow | src/core/kdtree.h:175-181 | the first classification loop writes the ids of the START events before the chosen event, in order, at most `n` of them, and no other slot of `below` |
| KdEdges.CollectStarts | src/core/kdtree.h:176-181 | the loop writes exactly the START ids of the events it scans |
| KdEdges.CollectAbove | src/core/kdtree.h:182-187 | the second loop writes the ids of the END events after the chosen event, in order, at most `n` of them, from `above`'s offset, and no other slot |
| KdEdges.CollectEnds | src/core/kdtree.h:182-187 | the loop writes exactly the END ids of the events it scans |
| KdEdges.CollectEndStep | src/core/kdtree.h:183-186 | one pass stores the next END id right after those already stored and keeps every other slot |
| KdEdges.PartitionCovers | src/core/kdtree.h:175-187 | every overlapping geometry lands below or above the chosen event, or both |
| KdEdges.CoversOne | src/core/kdtree.h:175-187 | a geometry whose START and END events are both among the sorted events lands below or above any chosen event |
| KdEdges.ClassifiedIds | src/core/kdtree.h:175-187 | every classified id is one of the node's overlapping geometries |
| KdSplits.StartAxis | src/core/kdtree.h:115-121 | the first axis is Y or Z only when strictly longer than both others; X wins every tie |
| KdSplits.StartAxisTie | src/core/kdtree.h:117-121 | with Y and Z tied for longest, the search starts on X, the shortest axis |
| KdSplits.NextAxis | src/core/kdtree.h:165 | the next axis is `(axis + 1) % 3` |
| KdSplits.AxesDistinct | src/core/kdtree.h:123-166 | the three attempts visit three different axes |
| KdSplits.AxesDiffer | src/core/kdtree.h:123-166 | two different attempts are on different axes |
| KdSplits.SahCost | src/core/kdtree.h:145-149 | the cost is +inf exactly for a flat or unbounded node |
| KdSplits.SahCostFormula | src/core/kdtree.h:145-149 | a finite cost is `trav_cost + isec_cost * (S_below * n_below + S_above * n_above) / S_node` |
| KdSplits.DivideAsReciprocal | src/core/kdtree.h:146-148 | multiplying by `inv_total_surf` is dividing by the surface |
| KdSplits.Attempt | src/core/kdtree.h:127-159 | one attempt leaves the sorted events of `overlapping` on its axis in that axis's array; the new best bounds every candidate and is the first cheapest one when it improved |
| KdSplits.SearchedLower | src/core/kdtree.h:150-154 | lowering the best cost keeps it a bound of every earlier attempt |
| KdSplits.SearchedSorted | src/core/kdtree.h:127-134 | every attempt leaves the events of its own axis sorted |
| KdSplits.SearchedAppend | src/core/kdtree.h:123-166 | a finished attempt joins the searched attempts |
| KdSplits.ClosedLast | src/core/kdtree.h:161-163 | an attempt whose best is not below the leaf cost found no candidate below it |
| KdSplits.StepState | src/core/kdtree.h:123-166 | the search state holds after one more attempt |
| KdSplits.SearchStep | src/core/kdtree.h:123-166 | one pass of the axis loop: the search state holds, and the loop stops iff the best is below the leaf cost |
| KdSplits.FindSplit | src/core/kdtree.h:111-166 | at most three attempts on distinct axes from the start axis; fewer than three only when the best beats the leaf cost; every attempt but the last found nothing below that cost; the best is +inf iff no axis was chosen, and otherwise the first cheapest event of its attempt, whose sorted events are still in its array |
| KdSplits.BoundedByLower | src/core/kdtree.h:150-154 | a lower bound of candidates stays one when it decreases |
| KdSplits.NoneBelowBest | src/core/kdtree.h:161-163 | when the best is not below the leaf cost, no candidate is |
| KdWalks.Lower | src/geometry/mesh.cpp:46-52 | a strictly-closer `intersect` never raises `t`, and leaves it or lowers it to its own hit distance |
| KdWalks.Update | src/core/kdtree.h:259-260 | a geometry's intersect leaves `_t` on a miss; on a hit it overwrites `_t` under the overwrite policy, and never raises it under the closer-only policy |
| KdWalks.LeafTIsAHit | src/core/kdtree.h:255-261 | under either policy the leaf distance is never -inf, is finite iff one of the leaf's geometries is hit, and is then the distance of one of those hits |
| KdWalks.LeafTIsNearest | src/core/kdtree.h:255-261 | when every geometry of the leaf keeps only closer hits, the leaf distance is at most every hit |
| KdWalks.LeafTIsLastHit | src/core/kdtree.h:255-261 | when every geometry of the leaf overwrites, the leaf distance is the hit of the last geometry hit |
| KdWalks.OverwriteCanRaise | src/core/mesh.cpp:45 | an overwriting geometry after a nearer hit leaves the leaf distance at its own, farther hit |
| KdWalks.Expand | src/core/kdtree.h:267-291 | an internal node pushes one or two segments, each a child one level lower and smaller; a single push keeps the segment's range; a double push puts the far child on `[tsplit, tmax]` first and the near child on `[tmin, tsplit]` last |
| KdWalks.WalkInRange | src/core/kdtree.h:252-293 | a walk reports only distances inside its segment |
| KdWalks.WalkHitsReferenced | src/core/kdtree.h:255-265 | a finite distance a walk reports is a hit of a geometry one of its leaves references |
| KdWalks.LeafHitsReferenced | src/core/kdtree.h:255-265 | a finite distance a leaf reports is a hit of one of the geometries the leaf references |
| KdWalks.ExpandReferenced | src/core/kdtree.h:267-291 | the children an internal node pushes reference only geometries the node references |
| KdWalks.MissedLeafReportsInfinity | src/core/kdtree.h:257-265 | a leaf whose geometries all miss reports a hit at +inf when its segment is open towards +inf |
| KdWalks.ResumeOne | src/core/kdtree.h:248-252 | the loop over one segment is that segment's walk |
| KdWalks.WalkExpand | src/core/kdtree.h:267-291 | an internal node's walk is the loop over the segments it pushes |
| KdWalks.ResumeAppend | src/core/kdtree.h:252-253 | the loop over a stack with segments pushed on top runs the pushed ones first, and the rest only when they find nothing |
| KdWalks.ExpandResume | src/core/kdtree.h:267-291 | replacing an internal node's segment on top of the stack by its pushes does not change what the loop finds |
| KdWalks.ResumeLeaf | src/core/kdtree.h:254-265 | popping a leaf finds its leaf distance `LeafT` (the nearest hit only when every geometry keeps the closer hit) when that lies in the segment, and otherwise goes on with a smaller stack |
| KdWalks.ExpandWeight | src/core/kdtree.h:267-291 | pushing the children in place of their node lowers the total size of the stack |
| KdTrees.BoundsOf | src/core/kdtree.h:212-218 | the collected bounds are each geometry's bounds, in order |
| KdTrees.MergeAllContains | src/core/kdtree.h:217 | `total_bounds` contains every point of every geometry's bounds |
| KdTrees.MergeAllProper | src/core/kdtree.h:217 | merging proper bounds gives the empty box or a proper box |
| KdTrees.ChildBoxes | src/core/kdtree.h:189-193 | the two child boxes of a split strictly inside a proper box are proper, and a point is in the node iff it is in one of them, on the matching side of the plane |
| KdTrees.Classify | src/core/kdtree.h:175-187 | the classification writes at most `n` ids into each buffer; `below` gets the START ids before the chosen event and `above` the END ids after it, which together hold every overlapping geometry; `above` before its offset is kept |
| KdTrees.SortedCounts | src/core/kdtree.h:134 | the sorted events of `n` geometries hold `n` START and `n` END events |
| KdTrees.ClassifiedPartition | src/core/kdtree.h:175-187 | the START ids before any event and the END ids after it partition the overlapping geometries |
| KdTrees.SubIdsValid | src/core/kdtree.h:195-198 | ids drawn from geometries with proper bounds have proper bounds |
| KdTrees.ChosenInside | src/core/kdtree.h:144 | a candidate with a finite cost lies strictly inside a finite node box |
| KdTrees.RoomMonotone | src/core/kdtree.h:225 | a subtree over fewer geometries needs no more of `above` |
| KdTrees.RoomIsProduct | src/core/kdtree.h:225 | the room `k` levels need is `k * n` |
| KdTrees.RoomStep | src/core/kdtree.h:195-198 | a node's `n` ids plus its child's room fit in the node's room |
| KdTrees.SearchSplit | src/core/kdtree.h:111-172 | the search it returns is a run of the axis loop under the surface area costs of the node with the leaf cost `isec_cost * n` as the bar: every attempt's sorted events are bounded by the best cost, every attempt but the last found nothing below the leaf cost, and the best is the first cheapest event of its attempt; the node is split iff the leaf cost is not strictly below that best, so equal costs split; fewer than three attempts happen only when the best beats the leaf cost; a split is strictly inside the node box |
| KdTrees.ChooseSplit | src/core/kdtree.h:111-189 | the same search run as SearchSplit, with the split iff the leaf cost is not strictly below its best; when split, the chosen event is the search's cheapest, its plane lies strictly inside the node box and the overlapping geometries are partitioned below and above it; when not split, neither buffer changes |
| KdTrees.JoinChildren | src/core/kdtree.h:194-199 | patching the reserved node joins the two built children into one subtree whose leaves reference the node's geometries |
| KdTrees.AllIds | src/core/kdtree.h:220-223 | the ids `0 .. n - 1` |
| KdTrees.IotaMembers | src/core/kdtree.h:220-223 | the initial `overlapping` array holds every geometry once |
| KdTrees.CollectBounds | src/core/kdtree.h:212-218 | the constructor's loop collects every geometry's bounds and merges them into `total_bounds` from the default box |
| KdTrees.ScratchBuffers | src/core/kdtree.h:220-230 | `overlapping` holds `0 .. n - 1`, `below` has `n` slots, `above` has `(max_depth + 1) * n`, enough for every level, and the three event arrays `2n` each |
| KdTrees.KdTree.MakeLeaf | src/core/kdtree.h:79-86 | `leaf_node` appends exactly the overlapping ids to `geom_refs` and points at the first of them |
| KdTrees.KdTree.PushLeaf | src/core/kdtree.h:106-107 | pushing a leaf appends one node, which forms a subtree referencing exactly the overlapping ids |
| KdTrees.KdTree.Build | src/core/kdtree.h:101-201 | `build` returns the node count it saw on entry and keeps earlier nodes; the split search runs iff `n > max_geoms` and `depth < max_depth`, and then is a run of the surface area search of SearchSplit; the node is a leaf over exactly the overlapping ids iff the search did not run or the leaf cost is strictly below its best, and otherwise an internal node on the best axis at the chosen event's plane, strictly inside a finite node box; while the node and reference counts fit in the 30 bits of a header it is one subtree whose leaves reference exactly the overlapping geometries; `above` before its offset is kept |
| KdTrees.KdTree.SplitNode | src/core/kdtree.h:111-200 | for a node past both limits, the search is a run of the surface area search, and the node is a leaf iff the leaf cost is strictly below the best cost, and otherwise an internal node on the chosen event's plane |
| KdTrees.KdTree.PlaceNode | src/core/kdtree.h:168-200 | after the search, the node is a leaf over the overlapping ids iff no split was found, and otherwise an internal node on the chosen axis and plane whose subtree references the node's geometries |
| KdTrees.KdTree.BuildInterior | src/core/kdtree.h:189-200 | the placeholder is overwritten with an internal node on the chosen axis and split, pointing at the above child, and the whole is one subtree referencing the node's geometries |
| KdTrees.KdTree.BuildChild | src/core/kdtree.h:195-198 | the recursive `build` of a child appends one subtree after the nodes there were, referencing exactly the child's ids, and keeps `above` before its offset |
| KdTrees.KdTree.BuildChildren | src/core/kdtree.h:195-198 | the below child starts right after the placeholder, the above child after the whole below subtree, and each references exactly its classified ids, with `below` reused as the below child's input |
| KdTrees.KdTree.constructor | src/core/kdtree.h:204-236 | the fields are stored, `total_bounds` is the merge of all bounds, every reference names a geometry, and within the header limit the tree is valid and its leaves together reference every geometry; with few geometries or `max_depth == 0` the tree is one leaf over all of them |
| KdTrees.KdTree.BuildAll | src/core/kdtree.h:220-235 | the build from the root over all geometries at depth 0 gives that tree |
| KdTrees.KdTree.Intersect | src/core/kdtree.h:242-296 | it reports a hit iff the front-to-back walk from the root over the ray's range in `total_bounds` finds a leaf hit in its segment, and writes `t` only then; a missed total box reports no hit with `t` unchanged |
| KdTrees.LeafDistance | src/core/kdtree.h:255-261 | the leaf loop, from `_t = +inf` and through each referenced geometry's update in order, gives the leaf distance `LeafT` |
| KdTrees.TraversalStep | src/core/kdtree.h:252-292 | one iteration either ends with what the stack would find, or leaves a smaller stack that finds the same |
| KdTrees.LeafStep | src/core/kdtree.h:254-265 | a popped leaf ends the search iff its leaf distance `LeafT` (the nearest hit only when every geometry keeps the closer hit) lies in its segment, and otherwise the rest of the stack decides |
| KdTrees.InteriorStep | src/core/kdtree.h:266-292 | a popped internal node's pushes keep what the stack finds and lower its size, and the stack stays within `max_depth + 1` entries |
| KdTrees.StackInvPush | src/core/kdtree.h:280-290 | the array mirrors the stack after the pushes |
| KdTrees.PushOrder | src/core/kdtree.h:271-277 | the near child is the below child iff `ro < split` or `ro == split && rd < 0` |
| KdTrees.PushChildren | src/core/kdtree.h:279-291 | the pushes write exactly the segments `Expand` gives, in its order, on top of the stack, and keep the entries below |
| KdTrees.TraverseHit | src/core/kdtree.h:242-296 | what the traversal reports lies inside the ray's range in the total bounds and so not behind the origin, and a finite distance is a hit of a referenced geometry |
| KdTrees.KdTree.Save | src/core/kdtree.h:326-342 | `save` writes magic, costs, limits, bounds, counts, nodes and references in that order, and that file reads back as the tree |
| KdTrees.KdTree.Load | src/core/kdtree.h:344-371 | `load` succeeds iff the file has the magic number and the saved layout, then restores every field; otherwise the tree is unchanged |
| KdFiles.Encode | src/core/kdtree.h:326-339 | the file has `8 + ncount + rcount` records and starts with the magic number |
| KdFiles.Decode | src/core/kdtree.h:344-367 | a file read back starts with the magic number and is long enough for the counts its header gives |
| KdFiles.DecodeEncode | src/core/kdtree.h:326-371 | `load` reads back exactly what `save` wrote |
| KdFiles.DecodeIgnoresTrailing | src/core/kdtree.h:344-371 | records after the references do not change what is read back |
| KdFiles.EncodedRecords | src/core/kdtree.h:328-339 | where each header field, node and reference sits in a saved file |
| KdFiles.EncodeDecode | src/core/kdtree.h:344-371 | a file that reads back, saved again, gives its records up to the last reference |

## Left out

- `KdTree::print_info` and `KdTree::print_dot` (src/core/kdtree.h:302-324): diagnostics written to standard error.
- `fopen`, `fread`, `fwrite` and `fclose` in `save` and `load`: a file is its sequence of typed records, because floats are reals here and there is no byte layout to model.
- KdTrees.KdTree.Load: on a bad magic number it returns `false` and leaves the tree unchanged, where the source calls `exit(1)`. It also refuses a truncated file or a record of the wrong kind, where `fread` would leave the fields undefined.
- `KdTree(const char *filename)` (src/core/kdtree.h:238): it only calls `load` on a fresh tree, so it has no member of its own; KdTrees.KdTree.Load states what it reads.
- KdTrees.KdTree.constructor: requires every geometry's bounds to be a proper box, which the source does not check. It states the node layout and the set of referenced geometries only while the node and reference counts fit in the 30 bits of a node header.
- KdTrees.KdTree.Build: states that the node's subtree is well formed and references exactly the overlapping geometries only while the node and reference counts fit in the 30 bits of a node header.
- KdTrees.KdTree.Intersect: requires `max_depth` below 64, the size of the fixed traversal stack; the source does not check this and would write past the stack.
- The `Intersection` record that `Geom::intersect` fills in and `intersect` passes along: a hit function returns only the distance.
- `KdTree::bounds()`: it returns the `totalBounds` field and has no member of its own.
- Float rounding, overflow to infinity from arithmetic, and NaN: floats are reals. This includes `Transform::has_nans`.
- `inverse(const Matrix&)`: the matrix inverse is a parameter of the constructors that need one (`Transform(m)`, `coord_sys`, `look_at`), since it involves division by a determinant the model does not compute.
- Transforms.Rotate: takes the sine and cosine of the angle as arguments instead of computing them from degrees.
- Transforms.LookAt: takes `normalize` (a square root) as a parameter.
- `perspective` and `orthographic` projection transforms: they depend on `tan` and on division by the near and far planes, outside what the model computes.
- The spectra's `sqrt` and `pow`, `SampledSpectrum::from_samples`, and the `xyz_to_rgb`/`rgb_to_xyz` conversions: transcendental functions and tabulated colour matching curves.
- `Film::print_ppm` and the destructor: file output and memory release.
- Films.Film.GetPixel: its ensures states only that the value is three components in [0, 1]. The full value is given by PixelValue, about which the lemmas are stated.
- The filter is a function parameter of the film; the filter classes themselves are not part of this model.
- The samplers' random numbers: the draws are a parameter of GetSampleBatch. `compute_subwindow` is left out: the tile window is a parameter of GetSubsampler. `to_string` is left out too.
- KdEdges.SortEdges: `std::sort` is modelled as an insertion sort with the contract `std::sort` gives, sorted and a permutation. Edges that compare equal may come out in another order than the library's.
- The default box's corners, surface area and volume: they are infinities the model does not compute.
- Transforms.ApplyBBox: requires a bounded box whose corners all have a non-zero homogeneous coordinate. Boxes with infinite corners, such as the default box, are not transformed in this model.
- Transforms.ScaleT: requires non-zero factors, because the inverse matrix holds their reciprocals; the source divides by zero and stores infinities.
- Vectors.Div and Vectors.VecCell.DivAssign: require a non-zero divisor; the source divides by zero as floats do.
- Spectra.CoefficientSpectrum.ShrinkAssign and Spectra.CoefficientSpectrum.Shrunk: require a non-zero divisor; the source divides by zero as floats do.
- Spectra.CoefficientSpectrum.DivAssign and Spectra.CoefficientSpectrum.Over: require every coefficient of the divisor to be non-zero; the source divides by zero as floats do.
- Films.Film.AddSample: an empty filter window returns with no change, as in the source, but the message "sample outside of image extent" that the source prints to standard error is not modelled.
- KdSplits.SahCost: a flat or unbounded node is charged +inf where the source divides by a zero or infinite surface and gets infinities or NaN; in both cases no split candidate beats the leaf.

Where the code and its description differ, the model follows the code:

- KdWalks.MissedLeafReportsInfinity: a leaf whose geometries all miss still reports a hit, at +inf, when the ray's segment is open towards +inf.

## Findings

| source | as written | input that shows it | evidently intended | confidence | as-written member | corrected member |
|---|---|---|---|---|---|---|
| include/core/bbox.h:82-84 | `operator+` builds its result with the two-point constructor, which re-orders the corners | two default (empty) boxes: the sum is the box from -inf to +inf, which contains every point | the union of two empty boxes is empty, as with `operator+=` | high, not executed | Boxes.UnionOfEmptiesIsUnbounded | Boxes.MergeHasEmptyIdentity |
| src/core/matrix.h:81-103 | `lhs *= rhs` overwrites `lhs` row by row while later rows still read `rhs` | `m *= m` with `m` having the first row `(0, 1, 0, 0)` and the second `(1, 0, 0, 0)`: the second row is computed from the already-squared first row | the product of the old `lhs` and the old `rhs`, whether or not they alias | medium, not executed | Matrices.SquareInPlaceDiffers | Matrices.MatrixCell.MulAssignFromCopy |
| src/core/film.h:35 | `new Pixel[_xres * _yres]` leaves every pixel's `weight` uninitialised | a pixel whose leftover weight is 1 and that receives one sample of radiance 0.5 with weight 1 reads 0.25 | every weight starts at 0, so one sample reads back as its own radiance | high, not executed | Films.UninitialisedWeightSkews | Films.OneSampleRecovered |
| src/core/film.h:34 | `_ydim = _xdim * (_yres / _xres)` divides the two `int` resolutions | a 640x480 film: `480 / 640` is 0, so the film's height is 0 | the height in proportion to the aspect ratio, 2 * 480 / 640 | high, not executed | Films.LandscapeFilmIsFlat | Films.FilmHeightExact |

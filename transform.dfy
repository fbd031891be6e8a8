/** Transforms (include/core/transform.h, src/core/transform.cpp, lib/core/transform.cpp).
    A transform carries its matrix `m` together with the matrix `inv` of the inverse transform;
    nothing in the class checks that the two are inverse to each other, so the lemmas that need
    it assume it explicitly (`Consistent`). */
module Transforms {
  import opened Numeric
  import opened Vectors
  import opened Boxes
  import opened Matrices

  datatype Transform = Transform(m: Matrix, inv: Matrix)

  /** `look_at` either builds a transform or throws `std::domain_error`. */
  datatype Outcome<T> = Success(value: T) | DomainError

  /** `Transform()`: the identity pair. */
  function Default(): Transform {
    Transform(Identity(), Identity())
  }

  /** `m` and `inv` undo each other on both sides. */
  predicate Consistent(t: Transform) {
    Mul(t.inv, t.m) == Identity() && Mul(t.m, t.inv) == Identity()
  }

  /** The last row is `(0, 0, 0, 1)`: the homogeneous `w` of a point stays 1. */
  predicate Affine(m: Matrix) {
    RowOf(m, 3) == Row4(0.0, 0.0, 0.0, 1.0)
  }

  /** A point in homogeneous coordinates (`w = 1`). */
  function PointH(p: Point): Row4 {
    Row4(p.x, p.y, p.z, 1.0)
  }

  /** A direction in homogeneous coordinates (`w = 0`). */
  function VectorH(v: Vector): Row4 {
    Row4(v.x, v.y, v.z, 0.0)
  }

  function Xyz(h: Row4): Vec3 {
    Vec3(h.c0, h.c1, h.c2)
  }

  /** The upper-left 3x3 block of `m` applied to `v`. */
  function Linear3(m: Matrix, v: Vec3): Vec3 {
    Vec3(m.m00 * v.x + m.m01 * v.y + m.m02 * v.z,
         m.m10 * v.x + m.m11 * v.y + m.m12 * v.z,
         m.m20 * v.x + m.m21 * v.y + m.m22 * v.z)
  }

  // ---------------------------------------------------------------------------------------
  // Applying a transform

  /** `xform(v)` for a `Vector`: a direction has `w = 0`, so the translation column takes no part. */
  function ApplyVector(t: Transform, v: Vector): Vector {
    Linear3(t.m, v)
  }

  /** A direction is transformed as the homogeneous vector with `w = 0`, and stays one. */
  lemma ApplyVectorHom(t: Transform, v: Vector)
    requires Affine(t.m)
    ensures VectorH(ApplyVector(t, v)) == Hom(t.m, VectorH(v))
  {
  }

  /** The homogeneous `w` of the image of point `p`. */
  function W(t: Transform, p: Point): real {
    t.m.m30 * p.x + t.m.m31 * p.y + t.m.m32 * p.z + t.m.m33
  }

  /** `xform(p)` for a `Point`: the homogeneous image divided by its `w`, which the source
      asserts to be non-zero. */
  function ApplyPoint(t: Transform, p: Point): Point
    requires W(t, p) != 0.0
  {
    var m := t.m;
    Div(Vec3(m.m00 * p.x + m.m01 * p.y + m.m02 * p.z + m.m03,
             m.m10 * p.x + m.m11 * p.y + m.m12 * p.z + m.m13,
             m.m20 * p.x + m.m21 * p.y + m.m22 * p.z + m.m23), W(t, p))
  }

  /** The image of a point, scaled back by `w`, is the homogeneous image of the point. */
  lemma ApplyPointHom(t: Transform, p: Point)
    requires W(t, p) != 0.0
    ensures W(t, p) == Hom(t.m, PointH(p)).c3
    ensures Scale(ApplyPoint(t, p), W(t, p)) == Xyz(Hom(t.m, PointH(p)))
  {
    var m := t.m;
    var h := Vec3(m.m00 * p.x + m.m01 * p.y + m.m02 * p.z + m.m03,
                  m.m10 * p.x + m.m11 * p.y + m.m12 * p.z + m.m13,
                  m.m20 * p.x + m.m21 * p.y + m.m22 * p.z + m.m23);
    HomOfPoint(m, p);
    assert ApplyPoint(t, p) == Div(h, W(t, p));
  }

  /** The homogeneous image of a point, written out. */
  lemma HomOfPoint(m: Matrix, p: Point)
    ensures Hom(m, PointH(p)) == Row4(m.m00 * p.x + m.m01 * p.y + m.m02 * p.z + m.m03,
                                      m.m10 * p.x + m.m11 * p.y + m.m12 * p.z + m.m13,
                                      m.m20 * p.x + m.m21 * p.y + m.m22 * p.z + m.m23,
                                      m.m30 * p.x + m.m31 * p.y + m.m32 * p.z + m.m33)
  {
  }

  /** `xform(n)` for a `Normal`: normals go through the transpose of the inverse matrix. */
  function ApplyNormal(t: Transform, n: Normal): (r: Normal)
    ensures r == Linear3(Transpose(t.inv), n)
  {
    var i := t.inv;
    Vec3(i.m00 * n.x + i.m10 * n.y + i.m20 * n.z,
         i.m01 * n.x + i.m11 * n.y + i.m21 * n.z,
         i.m02 * n.x + i.m12 * n.y + i.m22 * n.z)
  }

  /** `xform(ray)`: the origin as a point, the direction as a vector. */
  function ApplyRay(t: Transform, r: Ray): Ray
    requires W(t, r.o) != 0.0
  {
    Ray(ApplyPoint(t, r.o), ApplyVector(t, r.d))
  }

  /** Every corner of `b` has a non-zero homogeneous `w` under `t`. */
  predicate CornersMapped(t: Transform, b: BBox)
    requires b.Box?
  {
    forall i :: 0 <= i < 8 ==> W(t, Corner(b, i)) != 0.0
  }

  /** The images of corners `0 .. k-1` merged one by one into the default box. */
  function CornerImages(t: Transform, b: BBox, k: nat): (r: BBox)
    requires b.Box? && CornersMapped(t, b) && k <= 8
    ensures k == 0 ==> r == Empty
    ensures k > 0 ==> Proper(r)
    ensures forall i :: 0 <= i < k ==> Contains(r, ApplyPoint(t, Corner(b, i)))
    ensures k > 0 ==> forall a :: 0 <= a < 3 ==>
      (exists i :: 0 <= i < k && At(r.min, a) == At(ApplyPoint(t, Corner(b, i)), a))
      && (exists i :: 0 <= i < k && At(r.max, a) == At(ApplyPoint(t, Corner(b, i)), a))
  {
    if k == 0 then Empty
    else
      var prev := CornerImages(t, b, k - 1);
      var q := ApplyPoint(t, Corner(b, k - 1));
      var r := Merge(prev, FromPoint(q));
      forall i | 0 <= i < k
        ensures Contains(r, ApplyPoint(t, Corner(b, i)))
      {
        UnionContainsOperands(prev, FromPoint(q), ApplyPoint(t, Corner(b, i)));
      }
      if k == 1 then
        assert r == FromPoint(q);
        assert forall a :: 0 <= a < 3 ==> At(r.min, a) == At(q, a) && At(r.max, a) == At(q, a);
        r
      else
        UnionOfProperBoxes(prev, FromPoint(q));
        r
  }

  /** `xform(bbox)`: the default box grown by the images of the eight corners. The result is the
      smallest box holding those images: it holds each of them, and each of its bounds is a
      coordinate of one of them. */
  function ApplyBBox(t: Transform, b: BBox): (r: BBox)
    requires b.Box? && CornersMapped(t, b)
    ensures Proper(r)
    ensures forall i :: 0 <= i < 8 ==> Contains(r, ApplyPoint(t, Corner(b, i)))
    ensures forall a :: 0 <= a < 3 ==>
      (exists i :: 0 <= i < 8 && At(r.min, a) == At(ApplyPoint(t, Corner(b, i)), a))
      && (exists i :: 0 <= i < 8 && At(r.max, a) == At(ApplyPoint(t, Corner(b, i)), a))
  {
    CornerImages(t, b, 8)
  }

  /** A squared length more than one percent away from 1. */
  predicate OffUnit(x: real) {
    x < 0.99 || x > 1.01
  }

  /** `has_scale()`: some unit axis changes its squared length by more than one percent. */
  predicate HasScale(t: Transform) {
    OffUnit(LengthSquared(ApplyVector(t, Vec3(1.0, 0.0, 0.0))))
    || OffUnit(LengthSquared(ApplyVector(t, Vec3(0.0, 1.0, 0.0))))
    || OffUnit(LengthSquared(ApplyVector(t, Vec3(0.0, 0.0, 1.0))))
  }

  // ---------------------------------------------------------------------------------------
  // Comparison, inverse and product

  /** `operator==`: compares the matrices only; the stored inverses take no part. */
  predicate TEq(a: Transform, b: Transform)
    ensures TEq(a, b) <==> a.m == b.m
  {
    MatEqual(a.m, b.m)
  }

  /** `operator!=`: exactly the negation of `==`. */
  predicate TNotEq(a: Transform, b: Transform)
    ensures TNotEq(a, b) <==> !TEq(a, b)
  {
    MatNotEqual(a.m, b.m)
  }

  /** `inverse(t)`: the pair swapped. */
  function Inverse(t: Transform): Transform {
    Transform(t.inv, t.m)
  }

  /** `lhs * rhs`: matrices multiply in order, inverses in the reverse order. */
  function TMul(a: Transform, b: Transform): Transform {
    Transform(Mul(a.m, b.m), Mul(b.inv, a.inv))
  }

  lemma InverseInvolutive(t: Transform)
    ensures Inverse(Inverse(t)) == t
    ensures Consistent(t) ==> Consistent(Inverse(t))
  {
  }

  /** The inverse of a product is the product of the inverses in the reverse order. */
  lemma InverseOfProduct(a: Transform, b: Transform)
    ensures Inverse(TMul(a, b)) == TMul(Inverse(b), Inverse(a))
  {
  }

  /** The product of consistent transforms is consistent. */
  lemma ProductConsistent(a: Transform, b: Transform)
    requires Consistent(a) && Consistent(b)
    ensures Consistent(TMul(a, b))
  {
    calc {
      Mul(Mul(b.inv, a.inv), Mul(a.m, b.m));
      { MulAssociative(b.inv, a.inv, Mul(a.m, b.m)); }
      Mul(b.inv, Mul(a.inv, Mul(a.m, b.m)));
      { MulAssociative(a.inv, a.m, b.m); }
      Mul(b.inv, Mul(Mul(a.inv, a.m), b.m));
      { IdentityNeutral(b.m); }
      Mul(b.inv, b.m);
    }
    calc {
      Mul(Mul(a.m, b.m), Mul(b.inv, a.inv));
      { MulAssociative(a.m, b.m, Mul(b.inv, a.inv)); }
      Mul(a.m, Mul(b.m, Mul(b.inv, a.inv)));
      { MulAssociative(b.m, b.inv, a.inv); }
      Mul(a.m, Mul(Mul(b.m, b.inv), a.inv));
      { IdentityNeutral(a.inv); }
      Mul(a.m, a.inv);
    }
  }

  lemma ProductAffine(a: Matrix, b: Matrix)
    requires Affine(a) && Affine(b)
    ensures Affine(Mul(a, b))
  {
    assert RowOf(Mul(a, b), 3) == RowTimes(Row4(0.0, 0.0, 0.0, 1.0), b);
  }

  /** Under an affine matrix, a point keeps `w = 1` and its image is the homogeneous image. */
  lemma AffinePoint(t: Transform, p: Point)
    requires Affine(t.m)
    ensures W(t, p) == 1.0
    ensures PointH(ApplyPoint(t, p)) == Hom(t.m, PointH(p))
  {
    ApplyPointHom(t, p);
    assert Hom(t.m, PointH(p)).c3 == 1.0;
  }

  /** `(a * b)(p) == a(b(p))`: the right operand is applied first. */
  lemma ProductAppliesRightFirst(a: Transform, b: Transform, p: Point)
    requires Affine(a.m) && Affine(b.m)
    ensures Affine(TMul(a, b).m)
    ensures ApplyPoint(TMul(a, b), p) == ApplyPoint(a, ApplyPoint(b, p))
  {
    ProductAffine(a.m, b.m);
    AffinePoint(b, p);
    AffinePoint(a, ApplyPoint(b, p));
    AffinePoint(TMul(a, b), p);
    HomMul(a.m, b.m, PointH(p));
  }

  /** The same for directions; only the right operand needs to be affine. */
  lemma ProductAppliesRightFirstToVectors(a: Transform, b: Transform, v: Vector)
    requires Affine(b.m)
    ensures ApplyVector(TMul(a, b), v) == ApplyVector(a, ApplyVector(b, v))
  {
    HomMul(a.m, b.m, VectorH(v));
    ApplyVectorHom(b, v);
  }

  /** A consistent affine transform and its inverse undo each other on points. */
  lemma InverseUndoesPoint(t: Transform, p: Point)
    requires Consistent(t) && Affine(t.m) && Affine(t.inv)
    ensures ApplyPoint(Inverse(t), ApplyPoint(t, p)) == p
  {
    AffinePoint(t, p);
    AffinePoint(Inverse(t), ApplyPoint(t, p));
    HomMul(t.inv, t.m, PointH(p));
    HomIdentity(PointH(p));
  }

  // ---------------------------------------------------------------------------------------
  // Building transforms

  /** `translate(dx, dy, dz)` and `Translate(dx, dy, dz)`: the deltas in the last column of `m`,
      their negations in the last column of `inv`. */
  function Translate(dx: real, dy: real, dz: real): (r: Transform)
    ensures Affine(r.m) && Affine(r.inv)
    ensures ColOf(r.m, 3) == Row4(dx, dy, dz, 1.0)
  {
    Transform(
      Matrix(1.0, 0.0, 0.0, dx,
             0.0, 1.0, 0.0, dy,
             0.0, 0.0, 1.0, dz,
             0.0, 0.0, 0.0, 1.0),
      Matrix(1.0, 0.0, 0.0, -dx,
             0.0, 1.0, 0.0, -dy,
             0.0, 0.0, 1.0, -dz,
             0.0, 0.0, 0.0, 1.0))
  }

  /** A translation moves points by the deltas... */
  lemma TranslatePoint(dx: real, dy: real, dz: real, p: Point)
    ensures W(Translate(dx, dy, dz), p) == 1.0
    ensures ApplyPoint(Translate(dx, dy, dz), p) == Add(p, Vec3(dx, dy, dz))
  {
  }

  /** ...and leaves directions and normals alone. */
  lemma TranslateDirections(dx: real, dy: real, dz: real, v: Vector, n: Normal)
    ensures ApplyVector(Translate(dx, dy, dz), v) == v
    ensures ApplyNormal(Translate(dx, dy, dz), n) == n
  {
  }

  /** A translation's stored inverse is its inverse. */
  lemma TranslateConsistent(dx: real, dy: real, dz: real)
    ensures Consistent(Translate(dx, dy, dz))
  {
    var t := Translate(dx, dy, dz);
    assert Mul(t.inv, t.m) == Identity();
    assert Mul(t.m, t.inv) == Identity();
  }

  /** `translate(delta)` and `Translate(delta)`: the component overload. */
  function TranslateBy(delta: Vector): (r: Transform)
    ensures ColOf(r.m, 3) == Row4(delta.x, delta.y, delta.z, 1.0)
  {
    Translate(delta.x, delta.y, delta.z)
  }

  /** The inverse of a translation is the translation by the negated deltas. */
  lemma TranslateInverse(dx: real, dy: real, dz: real)
    ensures Inverse(Translate(dx, dy, dz)) == Translate(-dx, -dy, -dz)
  {
  }

  /** `scale(sx, sy, sz)` and `Scale(sx, sy, sz)`: diagonal `m`, reciprocal diagonal `inv`. The
      factors must be non-zero for `inv` to be defined. */
  function ScaleT(sx: real, sy: real, sz: real): (r: Transform)
    requires sx != 0.0 && sy != 0.0 && sz != 0.0
    ensures Affine(r.m) && Affine(r.inv)
    ensures r.m == Diagonal(sx, sy, sz, 1.0)
  {
    Transform(Diagonal(sx, sy, sz, 1.0), Diagonal(1.0 / sx, 1.0 / sy, 1.0 / sz, 1.0))
  }

  /** A scale multiplies points by the factors... */
  lemma ScalePoint(sx: real, sy: real, sz: real, p: Point)
    requires sx != 0.0 && sy != 0.0 && sz != 0.0
    ensures W(ScaleT(sx, sy, sz), p) == 1.0
    ensures ApplyPoint(ScaleT(sx, sy, sz), p) == Vec3(p.x * sx, p.y * sy, p.z * sz)
  {
  }

  /** ...multiplies directions by them too, and divides normals by them. */
  lemma ScaleDirections(sx: real, sy: real, sz: real, v: Vector, n: Normal)
    requires sx != 0.0 && sy != 0.0 && sz != 0.0
    ensures ApplyVector(ScaleT(sx, sy, sz), v) == Vec3(v.x * sx, v.y * sy, v.z * sz)
    ensures ApplyNormal(ScaleT(sx, sy, sz), n) == Vec3(n.x / sx, n.y / sy, n.z / sz)
  {
  }

  /** A scale's stored inverse is its inverse. */
  lemma ScaleConsistent(sx: real, sy: real, sz: real)
    requires sx != 0.0 && sy != 0.0 && sz != 0.0
    ensures Consistent(ScaleT(sx, sy, sz))
  {
    DiagonalProduct(sx, sy, sz, 1.0, 1.0 / sx, 1.0 / sy, 1.0 / sz, 1.0);
    DiagonalProduct(1.0 / sx, 1.0 / sy, 1.0 / sz, 1.0, sx, sy, sz, 1.0);
  }

  /** `scale(coefs)` and `Scale(coefs)`: the component overload. */
  function ScaleBy(coefs: Vector): (r: Transform)
    requires coefs.x != 0.0 && coefs.y != 0.0 && coefs.z != 0.0
    ensures r.m == Diagonal(coefs.x, coefs.y, coefs.z, 1.0)
  {
    ScaleT(coefs.x, coefs.y, coefs.z)
  }

  /** `rotate(axis, angle)`, given the sine `s` and cosine `c` of the angle: the rotation block in
      the upper-left 3x3, the identity's last row and column, and the transpose as the inverse. */
  function Rotate(axis: Vector, s: real, c: real): (r: Transform)
    ensures r.inv == Transpose(r.m)
    ensures Affine(r.m) && ColOf(r.m, 3) == Row4(0.0, 0.0, 0.0, 1.0)
  {
    var x, y, z := axis.x, axis.y, axis.z;
    var m := Matrix(
      x * x + (1.0 - x * x) * c, x * y * (1.0 - c) - z * s, x * z * (1.0 - c) + y * s, 0.0,
      x * y * (1.0 - c) + z * s, y * y + (1.0 - y * y) * c, y * z * (1.0 - c) - x * s, 0.0,
      x * z * (1.0 - c) - y * s, y * z * (1.0 - c) + x * s, z * z + (1.0 - z * z) * c, 0.0,
      0.0, 0.0, 0.0, 1.0);
    Transform(m, Transpose(m))
  }

  /** `coord_sys(right, up, front)`: the three vectors as the first three columns, so the unit
      axes map onto them; the inverse comes from the matrix inverse, a parameter here. */
  function CoordSys(right: Vector, up: Vector, front: Vector, inverse: Matrix -> Matrix): (r: Transform)
    ensures Affine(r.m) && r.inv == inverse(r.m)
    ensures ApplyVector(r, Vec3(1.0, 0.0, 0.0)) == right
    ensures ApplyVector(r, Vec3(0.0, 1.0, 0.0)) == up
    ensures ApplyVector(r, Vec3(0.0, 0.0, 1.0)) == front
    ensures forall p :: W(r, p) == 1.0 && ApplyPoint(r, p) == ApplyVector(r, p)
  {
    var m := Matrix(right.x, up.x, front.x, 0.0,
                    right.y, up.y, front.y, 0.0,
                    right.z, up.z, front.z, 0.0,
                    0.0, 0.0, 0.0, 1.0);
    Transform(m, inverse(m))
  }

  /** `look_at(pos, target, up)`. `normalize` (a square root) and the matrix inverse are
      parameters. It fails exactly when the normalised `up` is parallel to the view direction;
      otherwise the camera frame sits at `pos` looking along the view direction. */
  function LookAt(pos: Point, target: Point, up: Vector, normalize: Vector -> Vector,
                  inverse: Matrix -> Matrix): (r: Outcome<Transform>)
    ensures r.DomainError? <==> LengthSquared(Cross(normalize(up), normalize(Sub(target, pos)))) == 0.0
    ensures r.Success? ==> Affine(r.value.m) && r.value.inv == inverse(r.value.m)
    ensures r.Success? ==>
      W(r.value, Vec3(0.0, 0.0, 0.0)) == 1.0 && ApplyPoint(r.value, Vec3(0.0, 0.0, 0.0)) == pos
    ensures r.Success? ==> ApplyVector(r.value, Vec3(0.0, 0.0, 1.0)) == normalize(Sub(target, pos))
  {
    var dir := normalize(Sub(target, pos));
    var right := Cross(normalize(up), dir);
    if LengthSquared(right) == 0.0 then DomainError
    else
      var right := normalize(right);
      var up2 := normalize(Cross(dir, right));
      var m := Identity().(
        m00 := right.x, m10 := right.y, m20 := right.z,
        m01 := up2.x, m11 := up2.y, m21 := up2.z,
        m02 := dir.x, m12 := dir.y, m22 := dir.z,
        m03 := pos.x, m13 := pos.y, m23 := pos.z);
      Success(Transform(m, inverse(m)))
  }

  // ---------------------------------------------------------------------------------------
  // Boxes, rays and normals

  lemma {:induction false} CornerImagesFollowHull(t: Transform, b: BBox, c: BBox, k: nat)
    requires b.Box? && CornersMapped(t, b) && c.Box? && k <= 8
    requires forall i :: 0 <= i < 8 ==> ApplyPoint(t, Corner(b, i)) == Corner(c, i)
    ensures CornerImages(t, b, k) == CornerHull(c, k)
  {
    if k > 0 {
      CornerImagesFollowHull(t, b, c, k - 1);
    }
  }

  /** When `t` maps each corner of `b` onto the same corner of a proper box `c`, the
      transformed box is exactly `c`. */
  lemma ApplyBBoxOfCornerMap(t: Transform, b: BBox, c: BBox)
    requires b.Box? && CornersMapped(t, b) && Proper(c)
    requires forall i :: 0 <= i < 8 ==> ApplyPoint(t, Corner(b, i)) == Corner(c, i)
    ensures ApplyBBox(t, b) == c
  {
    CornerImagesFollowHull(t, b, c, 8);
    CornersRebuildBox(c);
  }

  /** A translated box is the box moved by the deltas. */
  lemma TranslateBox(dx: real, dy: real, dz: real, b: BBox)
    requires Proper(b)
    ensures CornersMapped(Translate(dx, dy, dz), b)
    ensures ApplyBBox(Translate(dx, dy, dz), b)
         == Box(Add(b.min, Vec3(dx, dy, dz)), Add(b.max, Vec3(dx, dy, dz)))
  {
    var t := Translate(dx, dy, dz);
    var c := Box(Add(b.min, Vec3(dx, dy, dz)), Add(b.max, Vec3(dx, dy, dz)));
    forall i | 0 <= i < 8
      ensures W(t, Corner(b, i)) == 1.0 && ApplyPoint(t, Corner(b, i)) == Corner(c, i)
    {
      TranslatePoint(dx, dy, dz, Corner(b, i));
    }
    ApplyBBoxOfCornerMap(t, b, c);
  }

  lemma ScaleKeepsOrder(a: real, b: real, k: real)
    requires a <= b && k > 0.0
    ensures a * k <= b * k
  {
    assert b * k - a * k == (b - a) * k;
  }

  /** A box scaled by positive factors is the box with both bounds scaled. */
  lemma ScaleBox(sx: real, sy: real, sz: real, b: BBox)
    requires sx > 0.0 && sy > 0.0 && sz > 0.0 && Proper(b)
    ensures CornersMapped(ScaleT(sx, sy, sz), b)
    ensures ApplyBBox(ScaleT(sx, sy, sz), b)
         == Box(Vec3(b.min.x * sx, b.min.y * sy, b.min.z * sz), Vec3(b.max.x * sx, b.max.y * sy, b.max.z * sz))
  {
    var t := ScaleT(sx, sy, sz);
    var c := Box(Vec3(b.min.x * sx, b.min.y * sy, b.min.z * sz), Vec3(b.max.x * sx, b.max.y * sy, b.max.z * sz));
    ScaleKeepsOrder(b.min.x, b.max.x, sx);
    ScaleKeepsOrder(b.min.y, b.max.y, sy);
    ScaleKeepsOrder(b.min.z, b.max.z, sz);
    forall i | 0 <= i < 8
      ensures W(t, Corner(b, i)) == 1.0 && ApplyPoint(t, Corner(b, i)) == Corner(c, i)
    {
      ScalePoint(sx, sy, sz, Corner(b, i));
    }
    ApplyBBoxOfCornerMap(t, b, c);
  }

  /** Under an affine matrix a point is moved linearly and then by the last column. */
  lemma AffineApplyPoint(t: Transform, p: Point)
    requires Affine(t.m)
    ensures W(t, p) == 1.0
    ensures ApplyPoint(t, p) == Add(Linear3(t.m, p), Vec3(t.m.m03, t.m.m13, t.m.m23))
  {
  }

  /** One row of a linear map distributes over `o + d * s`. */
  lemma RowAlongRay(a: real, b: real, c: real, o: Vec3, d: Vec3, s: real)
    ensures a * (o.x + d.x * s) + b * (o.y + d.y * s) + c * (o.z + d.z * s)
         == a * o.x + b * o.y + c * o.z + (a * d.x + b * d.y + c * d.z) * s
  {
    assert a * (o.x + d.x * s) == a * o.x + (a * d.x) * s;
    assert b * (o.y + d.y * s) == b * o.y + (b * d.y) * s;
    assert c * (o.z + d.z * s) == c * o.z + (c * d.z) * s;
  }

  lemma Linear3AlongRay(m: Matrix, o: Vec3, d: Vec3, s: real)
    ensures Linear3(m, Add(o, Scale(d, s))) == Add(Linear3(m, o), Scale(Linear3(m, d), s))
  {
    RowAlongRay(m.m00, m.m01, m.m02, o, d, s);
    RowAlongRay(m.m10, m.m11, m.m12, o, d, s);
    RowAlongRay(m.m20, m.m21, m.m22, o, d, s);
  }

  /** Under an affine transform, the image of a point along a ray is the point at the same
      parameter along the transformed ray. */
  lemma ApplyRayAlong(t: Transform, r: Ray, s: real)
    requires Affine(t.m)
    ensures W(t, r.o) == 1.0 && W(t, RayAt(r, s)) == 1.0
    ensures ApplyPoint(t, RayAt(r, s)) == RayAt(ApplyRay(t, r), s)
  {
    AffineApplyPoint(t, r.o);
    AffineApplyPoint(t, RayAt(r, s));
    Linear3AlongRay(t.m, r.o, r.d, s);
  }

  /** Moving a matrix to the other side of a dot product transposes it. */
  lemma DotTransposeHom(a: Matrix, x: Row4, y: Row4)
    ensures Dot4(Hom(Transpose(a), x), y) == Dot4(x, Hom(a, y))
  {
    assert Hom(Transpose(a), x) == RowTimes(x, a);
    RowTimesDot(x, a, y);
  }

  /** Normals stay perpendicular: when `inv` undoes an affine `m`, a transformed normal has the
      same dot product with a transformed direction as the originals had. */
  lemma NormalKeepsDot(t: Transform, n: Normal, v: Vector)
    requires Affine(t.m) && Mul(t.inv, t.m) == Identity()
    ensures Dot(ApplyNormal(t, n), ApplyVector(t, v)) == Dot(n, v)
  {
    var nh := Row4(n.x, n.y, n.z, 0.0);
    ApplyVectorHom(t, v);
    DotTransposeHom(t.inv, nh, Hom(t.m, VectorH(v)));
    HomMul(t.inv, t.m, VectorH(v));
    HomIdentity(VectorH(v));
  }

  lemma AxisLengths(t: Transform, a: real, b: real, c: real)
    requires LengthSquared(ApplyVector(t, Vec3(1.0, 0.0, 0.0))) == a
    requires LengthSquared(ApplyVector(t, Vec3(0.0, 1.0, 0.0))) == b
    requires LengthSquared(ApplyVector(t, Vec3(0.0, 0.0, 1.0))) == c
    ensures HasScale(t) <==> OffUnit(a) || OffUnit(b) || OffUnit(c)
  {
  }

  /** Neither the identity nor a translation has a scale. */
  lemma TranslateHasNoScale(dx: real, dy: real, dz: real)
    ensures !HasScale(Translate(dx, dy, dz))
  {
  }

  /** A scale has one exactly when some squared factor is more than one percent away from 1. */
  lemma ScaleHasScale(sx: real, sy: real, sz: real)
    requires sx != 0.0 && sy != 0.0 && sz != 0.0
    ensures HasScale(ScaleT(sx, sy, sz)) <==> OffUnit(sx * sx) || OffUnit(sy * sy) || OffUnit(sz * sz)
  {
    var t := ScaleT(sx, sy, sz);
    assert ApplyVector(t, Vec3(1.0, 0.0, 0.0)) == Vec3(sx, 0.0, 0.0);
    assert ApplyVector(t, Vec3(0.0, 1.0, 0.0)) == Vec3(0.0, sy, 0.0);
    assert ApplyVector(t, Vec3(0.0, 0.0, 1.0)) == Vec3(0.0, 0.0, sz);
    AxisLengths(t, sx * sx, sy * sy, sz * sz);
  }

  /** A rotation by the zero angle (sine 0, cosine 1) about any axis is the identity. */
  lemma RotateByZero(axis: Vector)
    ensures Rotate(axis, 0.0, 1.0) == Default()
  {
  }

  /** About the z axis, a rotation turns the x-y plane by the angle and keeps z. */
  lemma RotateAboutZ(s: real, c: real, v: Vector)
    ensures ApplyVector(Rotate(Vec3(0.0, 0.0, 1.0), s, c), v) == Vec3(c * v.x - s * v.y, s * v.x + c * v.y, v.z)
  {
  }

  // ---------------------------------------------------------------------------------------
  // Test values
  // Values that reach a transform through parameters keep the verifier from unrolling every
  // definition on constants.

  lemma CompareTestValue()
    ensures ScaleT(1.0, 1.0, 1.0) == Default()
    ensures TEq(Transform(Identity(), Identity()), ScaleT(1.0, 1.0, 1.0))
  {
  }

  lemma InverseTestValue()
    ensures TEq(Inverse(Translate(-1.0, 1.0, 0.0)), Translate(1.0, -1.0, 0.0))
  {
    TranslateInverse(-1.0, 1.0, 0.0);
  }

  lemma ApplyTestValues()
    ensures ApplyVector(Translate(4.0, 5.0, 6.0), Vec3(1.0, 2.0, 3.0)) == Vec3(1.0, 2.0, 3.0)
    ensures ApplyPoint(Translate(4.0, 5.0, 6.0), Vec3(1.0, 2.0, 3.0)) == Vec3(5.0, 7.0, 9.0)
    ensures ApplyNormal(Translate(4.0, 5.0, 6.0), Vec3(1.0, 2.0, 3.0)) == Vec3(1.0, 2.0, 3.0)
  {
    TranslatePoint(4.0, 5.0, 6.0, Vec3(1.0, 2.0, 3.0));
    TranslateDirections(4.0, 5.0, 6.0, Vec3(1.0, 2.0, 3.0), Vec3(1.0, 2.0, 3.0));
  }

  /** `Translate(1, 2, 3)` of the box spanning [-1, 1] on every axis. */
  lemma TranslateBoxTestValue(dx: real, dy: real, dz: real)
    requires dx == 1.0 && dy == 2.0 && dz == 3.0
    ensures ApplyBBox(Translate(dx, dy, dz), FromPoints(Splat(-1.0), Splat(1.0)))
         == FromPoints(Vec3(0.0, 1.0, 2.0), Vec3(2.0, 3.0, 4.0))
  {
    var b := FromPoints(Splat(-1.0), Splat(1.0));
    assert b == Box(Splat(-1.0), Splat(1.0));
    TranslateBox(dx, dy, dz, b);
  }

  /** `Scale(1, 2, 3)` of the same box. */
  lemma ScaleBoxTestValue(sx: real, sy: real, sz: real, b: BBox)
    requires sx == 1.0 && sy == 2.0 && sz == 3.0 && b == Box(Splat(-1.0), Splat(1.0))
    ensures CornersMapped(ScaleT(sx, sy, sz), b)
    ensures ApplyBBox(ScaleT(sx, sy, sz), b) == Box(Vec3(-1.0, -2.0, -3.0), Vec3(1.0, 2.0, 3.0))
  {
    ScaleBox(sx, sy, sz, b);
  }

  /** `Scale(k, k, k) * Translate(d)` translates first, then scales (the source's product test
      takes k = 2, d = (-1, 1, 0) and the origin). */
  lemma ScaleAfterTranslate(k: real, dx: real, dy: real, dz: real, p: Point)
    requires k != 0.0
    ensures W(TMul(ScaleT(k, k, k), Translate(dx, dy, dz)), p) == 1.0
    ensures ApplyPoint(TMul(ScaleT(k, k, k), Translate(dx, dy, dz)), p) == Scale(Add(p, Vec3(dx, dy, dz)), k)
  {
    ProductAppliesRightFirst(ScaleT(k, k, k), Translate(dx, dy, dz), p);
    AffinePoint(TMul(ScaleT(k, k, k), Translate(dx, dy, dz)), p);
    TranslatePoint(dx, dy, dz, p);
    ScalePoint(k, k, k, Add(p, Vec3(dx, dy, dz)));
  }

  // ---------------------------------------------------------------------------------------
  // In-place application to a value passed by address

  /** `xform(&v)` for a `Vector`. */
  method ApplyVectorInPlace(t: Transform, v: VecCell)
    modifies v
    ensures v.Value() == ApplyVector(t, old(v.Value()))
  {
    var x, y, z := v.x, v.y, v.z;
    v.x := t.m.m00 * x + t.m.m01 * y + t.m.m02 * z;
    v.y := t.m.m10 * x + t.m.m11 * y + t.m.m12 * z;
    v.z := t.m.m20 * x + t.m.m21 * y + t.m.m22 * z;
  }

  /** `xform(&p)` for a `Point`: the homogeneous image stored, then divided in place by `w`. */
  method ApplyPointInPlace(t: Transform, p: VecCell)
    requires W(t, p.Value()) != 0.0
    modifies p
    ensures p.Value() == ApplyPoint(t, old(p.Value()))
  {
    var q := p.Value();
    var h := Vec3(t.m.m00 * q.x + t.m.m01 * q.y + t.m.m02 * q.z + t.m.m03,
                  t.m.m10 * q.x + t.m.m11 * q.y + t.m.m12 * q.z + t.m.m13,
                  t.m.m20 * q.x + t.m.m21 * q.y + t.m.m22 * q.z + t.m.m23);
    var w := t.m.m30 * q.x + t.m.m31 * q.y + t.m.m32 * q.z + t.m.m33;
    assert ApplyPoint(t, q) == Div(h, w);
    p.x, p.y, p.z := h.x, h.y, h.z;
    p.DivAssign(w);
  }

  /** `xform(&n)` for a `Normal`. */
  method ApplyNormalInPlace(t: Transform, n: VecCell)
    modifies n
    ensures n.Value() == ApplyNormal(t, old(n.Value()))
  {
    var x, y, z := n.x, n.y, n.z;
    n.x := t.inv.m00 * x + t.inv.m10 * y + t.inv.m20 * z;
    n.y := t.inv.m01 * x + t.inv.m11 * y + t.inv.m21 * z;
    n.z := t.inv.m02 * x + t.inv.m12 * y + t.inv.m22 * z;
  }

  // ---------------------------------------------------------------------------------------
  // A transform updated in place

  /** A `Transform` object: its two matrices are objects of their own, updated in place. */
  class TransformCell {
    const m: MatrixCell
    const inv: MatrixCell

    /** The two matrices are distinct objects. */
    predicate Valid()
      reads this
    {
      m != inv
    }

    function Value(): Transform
      reads this, m, inv
    {
      Transform(m.value, inv.value)
    }

    constructor (t: Transform)
      ensures Valid() && Value() == t
      ensures fresh(m) && fresh(inv)
    {
      m := new MatrixCell(t.m);
      inv := new MatrixCell(t.inv);
    }

    /** `lhs *= rhs`: `lhs._m *= rhs._m` through the row-by-row matrix update, then
        `lhs._inv = rhs._inv * lhs._inv`. For a distinct `rhs` that is the product `lhs * rhs`;
        for `t *= t` the matrix update reads rows it has already overwritten. */
    method MulAssign(rhs: TransformCell)
      requires Valid() && rhs.Valid()
      requires rhs == this || {rhs.m, rhs.inv} !! {m, inv}
      modifies m, inv
      ensures rhs != this ==> Value() == TMul(old(Value()), old(rhs.Value()))
      ensures rhs == this ==> m.value == SquareInPlace(old(m.value)) && inv.value == Mul(old(inv.value), old(inv.value))
    {
      m.MulAssign(rhs.m);
      inv.value := Mul(rhs.inv.value, inv.value);
    }
  }

  // ---------------------------------------------------------------------------------------
  // Composition of a list of transforms

  /** The matrices of `ts[i..]` multiplied in reverse order: `m_{n-1} * ... * m_i`. */
  function ProductDown(ts: seq<Transform>, i: nat): Matrix
    requires i <= |ts|
    decreases |ts| - i
  {
    if i == |ts| then Identity() else Mul(ProductDown(ts, i + 1), ts[i].m)
  }

  /** The inverses of `ts[..k]` multiplied in order: `inv_0 * ... * inv_{k-1}`. */
  function ProductUp(ts: seq<Transform>, k: nat): Matrix
    requires k <= |ts|
  {
    if k == 0 then Identity() else Mul(ProductUp(ts, k - 1), ts[k - 1].inv)
  }

  /** What `compose(ts)` returns. */
  function ComposeSpec(ts: seq<Transform>): Transform {
    Transform(ProductDown(ts, 0), ProductUp(ts, |ts|))
  }

  /** `compose(transforms)`: `m` accumulates the matrices from the last transform to the first,
      `inv` the inverses from the first to the last, both with the in-place matrix product. */
  method Compose(ts: seq<Transform>) returns (r: Transform)
    ensures r == ComposeSpec(ts)
  {
    var m := new MatrixCell(Identity());
    var inv := new MatrixCell(Identity());
    var i := |ts|;
    while i > 0
      invariant 0 <= i <= |ts|
      invariant m.value == ProductDown(ts, i) && inv.value == Identity()
    {
      i := i - 1;
      var rhs := new MatrixCell(ts[i].m);
      m.MulAssign(rhs);
    }
    var k := 0;
    while k < |ts|
      invariant 0 <= k <= |ts|
      invariant inv.value == ProductUp(ts, k)
      invariant m.value == ProductDown(ts, 0)
    {
      var rhs := new MatrixCell(ts[k].inv);
      inv.MulAssign(rhs);
      k := k + 1;
    }
    r := Transform(m.value, inv.value);
  }

  lemma {:induction false} ProductDownAppend(ts: seq<Transform>, t: Transform, i: nat)
    requires i <= |ts|
    ensures ProductDown(ts + [t], i) == Mul(t.m, ProductDown(ts, i))
    decreases |ts| - i
  {
    if i == |ts| {
      assert ProductDown(ts + [t], i + 1) == Identity();
      IdentityNeutral(t.m);
    } else {
      ProductDownAppend(ts, t, i + 1);
      assert (ts + [t])[i] == ts[i];
      MulAssociative(t.m, ProductDown(ts, i + 1), ts[i].m);
    }
  }

  lemma {:induction false} ProductUpAppend(ts: seq<Transform>, t: Transform, k: nat)
    requires k <= |ts|
    ensures ProductUp(ts + [t], k) == ProductUp(ts, k)
  {
    if k > 0 {
      ProductUpAppend(ts, t, k - 1);
      assert (ts + [t])[k - 1] == ts[k - 1];
    }
  }

  /** Composing nothing gives the identity pair. */
  lemma ComposeEmpty()
    ensures ComposeSpec([]) == Default()
  {
  }

  /** Appending a transform to the list multiplies it on the left: it is applied last. */
  lemma ComposeAppend(ts: seq<Transform>, t: Transform)
    ensures ComposeSpec(ts + [t]) == TMul(t, ComposeSpec(ts))
  {
    ProductDownAppend(ts, t, 0);
    ProductUpAppend(ts, t, |ts|);
    assert (ts + [t])[|ts|] == t;
  }

  /** Composing one transform gives that transform. */
  lemma ComposeSingle(t: Transform)
    ensures ComposeSpec([t]) == t
  {
    ComposeAppend([], t);
    assert [] + [t] == [t];
    IdentityNeutral(t.m);
    IdentityNeutral(t.inv);
  }

  /** Composing consistent transforms gives a consistent transform. */
  lemma {:induction false} ComposeConsistent(ts: seq<Transform>)
    requires forall i :: 0 <= i < |ts| ==> Consistent(ts[i])
    ensures Consistent(ComposeSpec(ts))
  {
    if |ts| == 0 {
      IdentityNeutral(Identity());
    } else {
      var init, t := ts[..|ts| - 1], ts[|ts| - 1];
      assert ts == init + [t];
      ComposeConsistent(init);
      ComposeAppend(init, t);
      ProductConsistent(t, ComposeSpec(init));
    }
  }

  /** Each point of `ts` applied in list order, the first transform first. */
  function ApplyAll(ts: seq<Transform>, p: Point): Point
    requires forall i :: 0 <= i < |ts| ==> Affine(ts[i].m)
  {
    if |ts| == 0 then p
    else
      var q := ApplyAll(ts[..|ts| - 1], p);
      AffinePoint(ts[|ts| - 1], q);
      ApplyPoint(ts[|ts| - 1], q)
  }

  /** Composing affine transforms gives an affine transform that applies them in list order. */
  lemma {:induction false} ComposeAppliesInOrder(ts: seq<Transform>, p: Point)
    requires forall i :: 0 <= i < |ts| ==> Affine(ts[i].m)
    ensures Affine(ComposeSpec(ts).m)
    ensures W(ComposeSpec(ts), p) == 1.0 && ApplyPoint(ComposeSpec(ts), p) == ApplyAll(ts, p)
  {
    if |ts| == 0 {
      AffinePoint(Default(), p);
      HomIdentity(PointH(p));
    } else {
      var init, t := ts[..|ts| - 1], ts[|ts| - 1];
      assert ts == init + [t];
      ComposeAppliesInOrder(init, p);
      ComposeAppend(init, t);
      ProductAppliesRightFirst(t, ComposeSpec(init), p);
      AffinePoint(ComposeSpec(ts), p);
    }
  }
}

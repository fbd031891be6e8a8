/** 4x4 matrices (src/core/matrix.h), row-major with entries `m00 .. m33`. */
module Matrices {

  datatype Matrix = Matrix(
    m00: real, m01: real, m02: real, m03: real,
    m10: real, m11: real, m12: real, m13: real,
    m20: real, m21: real, m22: real, m23: real,
    m30: real, m31: real, m32: real, m33: real)

  /** Four consecutive entries of a matrix: a row, a column, or the `tmp[4]` buffer of `*=`. */
  datatype Row4 = Row4(c0: real, c1: real, c2: real, c3: real)

  function Comp(v: Row4, j: nat): real
    requires j < 4
  {
    if j == 0 then v.c0 else if j == 1 then v.c1 else if j == 2 then v.c2 else v.c3
  }

  function RowOf(m: Matrix, i: nat): Row4
    requires i < 4
  {
    if i == 0 then Row4(m.m00, m.m01, m.m02, m.m03)
    else if i == 1 then Row4(m.m10, m.m11, m.m12, m.m13)
    else if i == 2 then Row4(m.m20, m.m21, m.m22, m.m23)
    else Row4(m.m30, m.m31, m.m32, m.m33)
  }

  function ColOf(m: Matrix, j: nat): Row4
    requires j < 4
  {
    if j == 0 then Row4(m.m00, m.m10, m.m20, m.m30)
    else if j == 1 then Row4(m.m01, m.m11, m.m21, m.m31)
    else if j == 2 then Row4(m.m02, m.m12, m.m22, m.m32)
    else Row4(m.m03, m.m13, m.m23, m.m33)
  }

  /** Entry in row `i`, column `j`. */
  function Entry(m: Matrix, i: nat, j: nat): real
    requires i < 4 && j < 4
  {
    Comp(RowOf(m, i), j)
  }

  function Dot4(u: Row4, v: Row4): real {
    u.c0 * v.c0 + u.c1 * v.c1 + u.c2 * v.c2 + u.c3 * v.c3
  }

  /** A row vector times `b`: the four sums of products the source writes for one row of a product. */
  function RowTimes(v: Row4, b: Matrix): (r: Row4)
    ensures forall j :: 0 <= j < 4 ==> Comp(r, j) == Dot4(v, ColOf(b, j))
  {
    Row4(v.c0 * b.m00 + v.c1 * b.m10 + v.c2 * b.m20 + v.c3 * b.m30,
         v.c0 * b.m01 + v.c1 * b.m11 + v.c2 * b.m21 + v.c3 * b.m31,
         v.c0 * b.m02 + v.c1 * b.m12 + v.c2 * b.m22 + v.c3 * b.m32,
         v.c0 * b.m03 + v.c1 * b.m13 + v.c2 * b.m23 + v.c3 * b.m33)
  }

  function FromRows(r0: Row4, r1: Row4, r2: Row4, r3: Row4): (m: Matrix)
    ensures RowOf(m, 0) == r0 && RowOf(m, 1) == r1 && RowOf(m, 2) == r2 && RowOf(m, 3) == r3
  {
    Matrix(r0.c0, r0.c1, r0.c2, r0.c3, r1.c0, r1.c1, r1.c2, r1.c3,
           r2.c0, r2.c1, r2.c2, r2.c3, r3.c0, r3.c1, r3.c2, r3.c3)
  }

  /** Row `i` of `m` overwritten with `row`; the other rows are untouched. */
  function WithRow(m: Matrix, i: nat, row: Row4): (r: Matrix)
    requires i < 4
    ensures RowOf(r, i) == row
    ensures forall k :: 0 <= k < 4 && k != i ==> RowOf(r, k) == RowOf(m, k)
  {
    if i == 0 then m.(m00 := row.c0, m01 := row.c1, m02 := row.c2, m03 := row.c3)
    else if i == 1 then m.(m10 := row.c0, m11 := row.c1, m12 := row.c2, m13 := row.c3)
    else if i == 2 then m.(m20 := row.c0, m21 := row.c1, m22 := row.c2, m23 := row.c3)
    else m.(m30 := row.c0, m31 := row.c1, m32 := row.c2, m33 := row.c3)
  }

  /** `Matrix(value)`: all sixteen entries set to `value` (the default is the zero matrix). */
  function Fill(value: real): (r: Matrix)
    ensures forall i, j :: 0 <= i < 4 && 0 <= j < 4 ==> Entry(r, i, j) == value
  {
    Matrix(value, value, value, value, value, value, value, value,
           value, value, value, value, value, value, value, value)
  }

  /** The constant `Identity`: ones on the diagonal, zeros elsewhere. */
  function Identity(): (r: Matrix)
    ensures forall i, j :: 0 <= i < 4 && 0 <= j < 4 ==> Entry(r, i, j) == if i == j then 1.0 else 0.0
  {
    Matrix(1.0, 0.0, 0.0, 0.0,
           0.0, 1.0, 0.0, 0.0,
           0.0, 0.0, 1.0, 0.0,
           0.0, 0.0, 0.0, 1.0)
  }

  /** A diagonal matrix, as the tests build them. */
  function Diagonal(a: real, b: real, c: real, d: real): Matrix {
    Matrix(a, 0.0, 0.0, 0.0,
           0.0, b, 0.0, 0.0,
           0.0, 0.0, c, 0.0,
           0.0, 0.0, 0.0, d)
  }

  /** `operator==`: all sixteen entries compare equal, which is exactly value equality. */
  predicate MatEqual(a: Matrix, b: Matrix)
    ensures MatEqual(a, b) <==> a == b
  {
    a.m00 == b.m00 && a.m01 == b.m01 && a.m02 == b.m02 && a.m03 == b.m03
    && a.m10 == b.m10 && a.m11 == b.m11 && a.m12 == b.m12 && a.m13 == b.m13
    && a.m20 == b.m20 && a.m21 == b.m21 && a.m22 == b.m22 && a.m23 == b.m23
    && a.m30 == b.m30 && a.m31 == b.m31 && a.m32 == b.m32 && a.m33 == b.m33
  }

  /** `operator!=`: some entry differs, which is exactly the negation of `==`. */
  predicate MatNotEqual(a: Matrix, b: Matrix)
    ensures MatNotEqual(a, b) <==> !MatEqual(a, b)
  {
    a.m00 != b.m00 || a.m01 != b.m01 || a.m02 != b.m02 || a.m03 != b.m03
    || a.m10 != b.m10 || a.m11 != b.m11 || a.m12 != b.m12 || a.m13 != b.m13
    || a.m20 != b.m20 || a.m21 != b.m21 || a.m22 != b.m22 || a.m23 != b.m23
    || a.m30 != b.m30 || a.m31 != b.m31 || a.m32 != b.m32 || a.m33 != b.m33
  }

  /** `lhs * rhs`: row i of the product is row i of `lhs` times `rhs`. */
  function Mul(a: Matrix, b: Matrix): (r: Matrix)
    ensures forall i :: 0 <= i < 4 ==> RowOf(r, i) == RowTimes(RowOf(a, i), b)
  {
    FromRows(RowTimes(RowOf(a, 0), b), RowTimes(RowOf(a, 1), b),
             RowTimes(RowOf(a, 2), b), RowTimes(RowOf(a, 3), b))
  }

  /** Entry (i, j) of a product is row i of the left operand dotted with column j of the right. */
  lemma MulEntry(a: Matrix, b: Matrix, i: nat, j: nat)
    requires i < 4 && j < 4
    ensures Entry(Mul(a, b), i, j) == Dot4(RowOf(a, i), ColOf(b, j))
  {
  }

  /** `lhs * c`: every entry scaled by `c`. */
  function MulScalar(m: Matrix, c: real): (r: Matrix)
    ensures forall i :: 0 <= i < 4 ==> RowOf(r, i) == Scale4(RowOf(m, i), c)
  {
    FromRows(Scale4(RowOf(m, 0), c), Scale4(RowOf(m, 1), c), Scale4(RowOf(m, 2), c), Scale4(RowOf(m, 3), c))
  }

  /** `transpose(m)`: rows become columns. */
  function Transpose(m: Matrix): (r: Matrix)
    ensures forall i :: 0 <= i < 4 ==> RowOf(r, i) == ColOf(m, i) && ColOf(r, i) == RowOf(m, i)
  {
    Matrix(m.m00, m.m10, m.m20, m.m30,
           m.m01, m.m11, m.m21, m.m31,
           m.m02, m.m12, m.m22, m.m32,
           m.m03, m.m13, m.m23, m.m33)
  }

  lemma TransposeSwapsEntries(m: Matrix, i: nat, j: nat)
    requires i < 4 && j < 4
    ensures Entry(Transpose(m), i, j) == Entry(m, j, i)
  {
  }

  lemma TransposeInvolutive(m: Matrix)
    ensures Transpose(Transpose(m)) == m
    ensures Transpose(Identity()) == Identity()
  {
  }

  /** The identity is neutral for the product on both sides. */
  lemma IdentityNeutral(m: Matrix)
    ensures Mul(Identity(), m) == m && Mul(m, Identity()) == m
  {
  }

  /** The product of diagonal matrices is diagonal with the elementwise products. */
  lemma DiagonalProduct(a: real, b: real, c: real, d: real, e: real, f: real, g: real, h: real)
    ensures Mul(Diagonal(a, b, c, d), Diagonal(e, f, g, h)) == Diagonal(a * e, b * f, c * g, d * h)
  {
  }

  lemma DiagonalScaled(a: real, b: real, c: real, d: real, k: real)
    ensures MulScalar(Diagonal(a, b, c, d), k) == Diagonal(a * k, b * k, c * k, d * k)
  {
  }

  /** Transposition reverses products. */
  lemma TransposeOfProduct(a: Matrix, b: Matrix)
    ensures Transpose(Mul(a, b)) == Mul(Transpose(b), Transpose(a))
  {
  }

  /** The values the matrix tests compare against. */
  lemma ScalarTestValue(a: real, b: real, c: real, d: real, k: real)
    requires a == 1.0 && b == 2.0 && c == 3.0 && d == 4.0 && k == 0.5
    ensures MulScalar(Diagonal(a, b, c, d), k) == Diagonal(0.5, 1.0, 1.5, 2.0)
  {
    DiagonalScaled(a, b, c, d, k);
  }

  lemma TransposeTestValue()
    ensures Transpose(Matrix(0.0, 1.0, 2.0, 3.0, 4.0, 5.0, 6.0, 7.0, 8.0, 9.0, 10.0, 11.0, 12.0, 13.0, 14.0, 15.0))
         == Matrix(0.0, 4.0, 8.0, 12.0, 1.0, 5.0, 9.0, 13.0, 2.0, 6.0, 10.0, 14.0, 3.0, 7.0, 11.0, 15.0)
  {
  }

  lemma CompareTestValue()
    ensures MatEqual(Identity(), Identity())
    ensures MatNotEqual(Identity(), Identity().(m33 := 0.0))
  {
  }

  // ---------------------------------------------------------------------------------------
  // Matrices acting on homogeneous coordinates

  /** `m` applied to the column vector `p`. */
  function Hom(m: Matrix, p: Row4): Row4 {
    Row4(Dot4(RowOf(m, 0), p), Dot4(RowOf(m, 1), p), Dot4(RowOf(m, 2), p), Dot4(RowOf(m, 3), p))
  }

  function Add4(x: Row4, y: Row4): Row4 {
    Row4(x.c0 + y.c0, x.c1 + y.c1, x.c2 + y.c2, x.c3 + y.c3)
  }

  function Scale4(x: Row4, k: real): Row4 {
    Row4(k * x.c0, k * x.c1, k * x.c2, k * x.c3)
  }

  /** A row times `b` is the combination of the rows of `b` weighted by the row's entries. */
  lemma RowTimesCombines(v: Row4, b: Matrix)
    ensures RowTimes(v, b) == Add4(Add4(Add4(Scale4(RowOf(b, 0), v.c0), Scale4(RowOf(b, 1), v.c1)),
                                        Scale4(RowOf(b, 2), v.c2)), Scale4(RowOf(b, 3), v.c3))
  {
  }

  lemma DotAdd(x: Row4, y: Row4, p: Row4)
    ensures Dot4(Add4(x, y), p) == Dot4(x, p) + Dot4(y, p)
  {
  }

  lemma DotScale(x: Row4, k: real, p: Row4)
    ensures Dot4(Scale4(x, k), p) == k * Dot4(x, p)
  {
  }

  /** `(v b) . p == v . (b p)`. */
  lemma RowTimesDot(v: Row4, b: Matrix, p: Row4)
    ensures Dot4(RowTimes(v, b), p) == Dot4(v, Hom(b, p))
  {
    var s0, s1 := Scale4(RowOf(b, 0), v.c0), Scale4(RowOf(b, 1), v.c1);
    var s2, s3 := Scale4(RowOf(b, 2), v.c2), Scale4(RowOf(b, 3), v.c3);
    RowTimesCombines(v, b);
    DotAdd(Add4(Add4(s0, s1), s2), s3, p);
    DotAdd(Add4(s0, s1), s2, p);
    DotAdd(s0, s1, p);
    DotScale(RowOf(b, 0), v.c0, p);
    DotScale(RowOf(b, 1), v.c1, p);
    DotScale(RowOf(b, 2), v.c2, p);
    DotScale(RowOf(b, 3), v.c3, p);
  }

  /** The product applies its right operand first: `(a b) p == a (b p)`. */
  lemma HomMul(a: Matrix, b: Matrix, p: Row4)
    ensures Hom(Mul(a, b), p) == Hom(a, Hom(b, p))
  {
    RowTimesDot(RowOf(a, 0), b, p);
    RowTimesDot(RowOf(a, 1), b, p);
    RowTimesDot(RowOf(a, 2), b, p);
    RowTimesDot(RowOf(a, 3), b, p);
  }

  lemma HomIdentity(p: Row4)
    ensures Hom(Identity(), p) == p
  {
  }

  /** A matrix is determined by what it does to the four unit vectors. */
  lemma HomDetermines(a: Matrix, b: Matrix)
    requires Hom(a, Row4(1.0, 0.0, 0.0, 0.0)) == Hom(b, Row4(1.0, 0.0, 0.0, 0.0))
    requires Hom(a, Row4(0.0, 1.0, 0.0, 0.0)) == Hom(b, Row4(0.0, 1.0, 0.0, 0.0))
    requires Hom(a, Row4(0.0, 0.0, 1.0, 0.0)) == Hom(b, Row4(0.0, 0.0, 1.0, 0.0))
    requires Hom(a, Row4(0.0, 0.0, 0.0, 1.0)) == Hom(b, Row4(0.0, 0.0, 0.0, 1.0))
    ensures a == b
  {
    assert ColOf(a, 0) == Hom(a, Row4(1.0, 0.0, 0.0, 0.0));
    assert ColOf(a, 1) == Hom(a, Row4(0.0, 1.0, 0.0, 0.0));
    assert ColOf(a, 2) == Hom(a, Row4(0.0, 0.0, 1.0, 0.0));
    assert ColOf(a, 3) == Hom(a, Row4(0.0, 0.0, 0.0, 1.0));
    assert ColOf(b, 0) == Hom(b, Row4(1.0, 0.0, 0.0, 0.0));
    assert ColOf(b, 1) == Hom(b, Row4(0.0, 1.0, 0.0, 0.0));
    assert ColOf(b, 2) == Hom(b, Row4(0.0, 0.0, 1.0, 0.0));
    assert ColOf(b, 3) == Hom(b, Row4(0.0, 0.0, 0.0, 1.0));
  }

  /** The product is associative. */
  lemma MulAssociative(a: Matrix, b: Matrix, c: Matrix)
    ensures Mul(Mul(a, b), c) == Mul(a, Mul(b, c))
  {
    forall p: Row4 ensures Hom(Mul(Mul(a, b), c), p) == Hom(Mul(a, Mul(b, c)), p) {
      HomMul(Mul(a, b), c, p);
      HomMul(a, b, Hom(c, p));
      HomMul(a, Mul(b, c), p);
      HomMul(b, c, p);
    }
    HomDetermines(Mul(Mul(a, b), c), Mul(a, Mul(b, c)));
  }

  /** One row step of `m *= m`: row `i` is recomputed against the matrix as it stands,
      whose earlier rows have already been overwritten. */
  function SelfRowStep(m: Matrix, i: nat): Matrix
    requires i < 4
  {
    WithRow(m, i, RowTimes(RowOf(m, i), m))
  }

  /** What the row-by-row `*=` leaves in a matrix multiplied by itself. */
  function SquareInPlace(m: Matrix): Matrix {
    SelfRowStep(SelfRowStep(SelfRowStep(SelfRowStep(m, 0), 1), 2), 3)
  }

  /** Multiplying the first two unit row vectors picks out a row. */
  lemma UnitRowTimes(b: Matrix)
    ensures RowTimes(Row4(1.0, 0.0, 0.0, 0.0), b) == RowOf(b, 0)
    ensures RowTimes(Row4(0.0, 1.0, 0.0, 0.0), b) == RowOf(b, 1)
  {
  }

  /** `m *= m` is not `m * m`: for a matrix that swaps the first two coordinates the square is
      the identity, but the in-place update reads the already overwritten first row. */
  lemma SquareInPlaceDiffers(m: Matrix)
    requires RowOf(m, 0) == Row4(0.0, 1.0, 0.0, 0.0) && RowOf(m, 1) == Row4(1.0, 0.0, 0.0, 0.0)
    ensures SquareInPlace(m).m11 == 0.0 && Mul(m, m).m11 == 1.0
  {
    UnitRowTimes(m);
    var m1 := SelfRowStep(m, 0);
    assert RowOf(m1, 1) == RowOf(m, 1);
    UnitRowTimes(m1);
    var m2 := SelfRowStep(m1, 1);
    assert RowOf(m2, 1) == Row4(1.0, 0.0, 0.0, 0.0);
    assert RowOf(SquareInPlace(m), 1) == RowOf(m2, 1);
    assert RowOf(Mul(m, m), 1) == Row4(0.0, 1.0, 0.0, 0.0);
  }

  /** A `Matrix` variable that the compound operators overwrite in place. */
  class MatrixCell {
    var value: Matrix

    constructor (m: Matrix)
      ensures value == m
    {
      value := m;
    }

    /** `lhs *= c`: every entry multiplied by `c` in place. */
    method MulScalarAssign(c: real)
      modifies this
      ensures value == MulScalar(old(value), c)
    {
      value := MulScalar(value, c);
    }

    /** `lhs *= rhs` as written: each row of `lhs` is computed into `tmp` from the not yet
        overwritten row and the current `rhs`, then stored. For a distinct `rhs` that is the
        product; when `rhs` is `lhs` itself, later rows read the rows already overwritten. */
    method MulAssign(rhs: MatrixCell)
      modifies this
      ensures rhs != this ==> value == Mul(old(value), old(rhs.value))
      ensures rhs == this ==> value == SquareInPlace(old(value))
    {
      var tmp := RowTimes(RowOf(value, 0), rhs.value);
      value := WithRow(value, 0, tmp);
      tmp := RowTimes(RowOf(value, 1), rhs.value);
      value := WithRow(value, 1, tmp);
      tmp := RowTimes(RowOf(value, 2), rhs.value);
      value := WithRow(value, 2, tmp);
      tmp := RowTimes(RowOf(value, 3), rhs.value);
      value := WithRow(value, 3, tmp);
    }

    /** `lhs *= rhs` with `rhs` copied before the first row is stored, so the result is the
        product even when both operands are the same matrix. */
    method MulAssignFromCopy(rhs: MatrixCell)
      modifies this
      ensures value == Mul(old(value), old(rhs.value))
    {
      var b := rhs.value;
      var tmp := RowTimes(RowOf(value, 0), b);
      value := WithRow(value, 0, tmp);
      tmp := RowTimes(RowOf(value, 1), b);
      value := WithRow(value, 1, tmp);
      tmp := RowTimes(RowOf(value, 2), b);
      value := WithRow(value, 2, tmp);
      tmp := RowTimes(RowOf(value, 3), b);
      value := WithRow(value, 3, tmp);
    }
  }
}

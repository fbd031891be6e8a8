/** Scalars shared by the whole model.
    Floats are modelled as mathematical reals (no rounding). Where the renderer relies on the
    IEEE infinities (the empty box, the slab test's open range, the traversal's "no hit yet"
    distance) the model uses `ExtReal`, the reals extended with -inf and +inf. */
module Numeric {

  datatype Option<T> = None | Some(value: T)

  /** A float that may also be one of the two infinities. */
  datatype ExtReal = NegInf | Fin(r: real) | PosInf

  /** `a <= b` on the extended reals. */
  predicate Le(a: ExtReal, b: ExtReal) {
    match (a, b)
    case (NegInf, _) => true
    case (_, PosInf) => true
    case (Fin(x), Fin(y)) => x <= y
    case _ => false
  }

  /** `a < b` on the extended reals. */
  predicate Lt(a: ExtReal, b: ExtReal) {
    !Le(b, a)
  }

  lemma LeTotalOrder(a: ExtReal, b: ExtReal, c: ExtReal)
    ensures Le(a, a)
    ensures Le(a, b) || Le(b, a)
    ensures Le(a, b) && Le(b, a) ==> a == b
    ensures Le(a, b) && Le(b, c) ==> Le(a, c)
  {
  }

  /** `e + d` for a finite `d`: the infinities absorb it. */
  function Shift(e: ExtReal, d: real): (r: ExtReal)
    ensures r.Fin? <==> e.Fin?
  {
    match e
    case Fin(x) => Fin(x + d)
    case _ => e
  }

  /** `e * k` for a non-zero finite `k`: a negative factor swaps the infinities. */
  function Times(e: ExtReal, k: real): (r: ExtReal)
    requires k != 0.0
    ensures r.Fin? <==> e.Fin?
  {
    match e
    case Fin(x) => Fin(x * k)
    case PosInf => if k > 0.0 then PosInf else NegInf
    case NegInf => if k > 0.0 then NegInf else PosInf
  }

  /** `almost_zero` of the source's math header: `|v| < 1e-8`. */
  predicate AlmostZero(v: real) {
    -0.00000001 < v < 0.00000001
  }

  /** `std::min(a, b)`: returns `a` unless `b < a`. */
  function MinR(a: real, b: real): (r: real)
    ensures r <= a && r <= b
    ensures r == a || r == b
  {
    if b < a then b else a
  }

  /** `std::max(a, b)`: returns `a` unless `a < b`. */
  function MaxR(a: real, b: real): (r: real)
    ensures a <= r && b <= r
    ensures r == a || r == b
  {
    if a < b then b else a
  }

  /** `std::min` on ints. */
  function MinI(a: int, b: int): (r: int)
    ensures r <= a && r <= b
    ensures r == a || r == b
  {
    if b < a then b else a
  }

  /** `std::max` on ints. */
  function MaxI(a: int, b: int): (r: int)
    ensures a <= r && b <= r
    ensures r == a || r == b
  {
    if a < b then b else a
  }

  /** `floor` followed by the cast to int. */
  function Floor(v: real): (r: int)
    ensures r as real <= v < r as real + 1.0
  {
    v.Floor
  }

  /** `ceil` followed by the cast to int. */
  function Ceil(v: real): (r: int)
    ensures r as real - 1.0 < v <= r as real
  {
    -((-v).Floor)
  }

  /** `std::abs` on a float. */
  function Abs(v: real): (r: real)
    ensures r >= 0.0 && (r == v || r == -v)
  {
    if v < 0.0 then -v else v
  }
}

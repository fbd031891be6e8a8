/** Axis-aligned bounding boxes (include/core/bbox.h).
    A box stores two corner points. The default box has every `min` coordinate at +inf and every
    `max` coordinate at -inf; the model names it `Empty`. Combining two default boxes with the
    two-point constructor produces the opposite infinite box (every `min` at -inf, every `max` at
    +inf), named `Unbounded`. Every other box reachable through the header's operations has
    finite corners. */
module Boxes {
  import opened Numeric
  import opened Vectors

  datatype BBox = Empty | Unbounded | Box(min: Point, max: Point)

  /** Coordinate `i` of `min`, with the infinities of the two infinite boxes. */
  function Lo(b: BBox, i: nat): ExtReal
    requires i < 3
  {
    match b
    case Empty => PosInf
    case Unbounded => NegInf
    case Box(mn, _) => Fin(At(mn, i))
  }

  /** Coordinate `i` of `max`, with the infinities of the two infinite boxes. */
  function Hi(b: BBox, i: nat): ExtReal
    requires i < 3
  {
    match b
    case Empty => NegInf
    case Unbounded => PosInf
    case Box(_, mx) => Fin(At(mx, i))
  }

  /** A finite box whose `min` is below its `max` on every axis. */
  predicate Proper(b: BBox) {
    b.Box? && b.min.x <= b.max.x && b.min.y <= b.max.y && b.min.z <= b.max.z
  }

  /** `BBox(p)`: the degenerate box holding exactly `p`. */
  function FromPoint(p: Point): (b: BBox)
    ensures Proper(b)
    ensures forall q :: Contains(b, q) <==> q == p
  {
    Box(p, p)
  }

  /** `BBox(p1, p2)`: stores the componentwise min and max, so the box is proper and
      independent of the order of its corners. */
  function FromPoints(p1: Point, p2: Point): (b: BBox)
    ensures Proper(b)
    ensures Contains(b, p1) && Contains(b, p2)
    ensures forall i :: 0 <= i < 3 ==>
      At(b.min, i) == MinR(At(p1, i), At(p2, i)) && At(b.max, i) == MaxR(At(p1, i), At(p2, i))
  {
    Box(MinV(p1, p2), MaxV(p1, p2))
  }

  /** `contains(p)`: inclusive range test on each axis. */
  predicate Contains(b: BBox, p: Point)
    ensures Contains(b, p) <==>
      forall i :: 0 <= i < 3 ==> Le(Lo(b, i), Fin(At(p, i))) && Le(Fin(At(p, i)), Hi(b, i))
  {
    match b
    case Empty => assert !Le(Lo(b, 0), Fin(At(p, 0))); false
    case Unbounded => true
    case Box(mn, mx) =>
      assert Lo(b, 0) == Fin(mn.x) && Lo(b, 1) == Fin(mn.y) && Lo(b, 2) == Fin(mn.z);
      assert Hi(b, 0) == Fin(mx.x) && Hi(b, 1) == Fin(mx.y) && Hi(b, 2) == Fin(mx.z);
      assert At(p, 0) == p.x && At(p, 1) == p.y && At(p, 2) == p.z;
      p.x >= mn.x && p.y >= mn.y && p.z >= mn.z && p.x <= mx.x && p.y <= mx.y && p.z <= mx.z
  }

  /** The componentwise `min` of the `min` corners and `max` of the `max` corners, without
      re-ordering them: what `b1 += b2` stores in `b1`. The infinities of the two infinite boxes
      make `Empty` the identity and `Unbounded` absorbing. */
  function Merge(b1: BBox, b2: BBox): (r: BBox)
    ensures forall i :: 0 <= i < 3 ==> Lo(r, i) == (if Le(Lo(b1, i), Lo(b2, i)) then Lo(b1, i) else Lo(b2, i))
    ensures forall i :: 0 <= i < 3 ==> Hi(r, i) == (if Le(Hi(b1, i), Hi(b2, i)) then Hi(b2, i) else Hi(b1, i))
  {
    match (b1, b2)
    case (Empty, _) => b2
    case (_, Empty) => b1
    case (Unbounded, _) => Unbounded
    case (_, Unbounded) => Unbounded
    case (Box(mn1, mx1), Box(mn2, mx2)) => Box(MinV(mn1, mn2), MaxV(mx1, mx2))
  }

  /** The two-point constructor applied to a box's own corners, as `operator+` does with the
      corners it has just combined. For the default box this swaps the infinities. */
  function Reorder(b: BBox): (r: BBox)
    ensures b.Box? ==> Proper(r)
    ensures Proper(b) ==> r == b
  {
    match b
    case Empty => Unbounded
    case Unbounded => Unbounded
    case Box(mn, mx) => FromPoints(mn, mx)
  }

  /** `b1 + b2`. */
  function Union(b1: BBox, b2: BBox): BBox {
    Reorder(Merge(b1, b2))
  }

  /** `b + p`. */
  function AddPoint(b: BBox, p: Point): BBox {
    Reorder(Merge(b, FromPoint(p)))
  }

  /** `expand(delta)`: moves `min` down and `max` up by `delta` on every axis. */
  function Expanded(b: BBox, delta: real): (r: BBox)
    ensures b.Box? ==>
      r.Box? && forall i :: 0 <= i < 3 ==> At(r.min, i) == At(b.min, i) - delta && At(r.max, i) == At(b.max, i) + delta
    ensures !b.Box? ==> r == b
    ensures delta >= 0.0 ==> forall p :: Contains(b, p) ==> Contains(r, p)
  {
    match b
    case Box(mn, mx) => Box(Sub(mn, Splat(delta)), Add(mx, Splat(delta)))
    case _ => b
  }

  /** `operator==`: both corners compare equal, which is exactly value equality. An infinite
      corner only equals the same infinity, so boxes of different kinds never compare equal. */
  predicate BoxEqual(b1: BBox, b2: BBox)
    ensures BoxEqual(b1, b2) <==> b1 == b2
  {
    match (b1, b2)
    case (Empty, Empty) => true
    case (Unbounded, Unbounded) => true
    case (Box(mn1, mx1), Box(mn2, mx2)) => Equal(mn1, mn2) && Equal(mx1, mx2)
    case _ => false
  }

  /** `operator!=`: some corner differs, which is exactly the negation of `==`. */
  predicate BoxNotEqual(b1: BBox, b2: BBox)
    ensures BoxNotEqual(b1, b2) <==> !BoxEqual(b1, b2)
  {
    match (b1, b2)
    case (Empty, Empty) => false
    case (Unbounded, Unbounded) => false
    case (Box(mn1, mx1), Box(mn2, mx2)) => NotEqual(mn1, mn2) || NotEqual(mx1, mx2)
    case _ => true
  }

  /** Bit `k` of the corner index `i`, as `(i & (1 << k)) != 0`. */
  predicate Bit(i: nat, k: nat) {
    (i / Pow2(k)) % 2 == 1
  }

  function Pow2(k: nat): (r: nat)
    ensures r >= 1
  {
    if k == 0 then 1 else 2 * Pow2(k - 1)
  }

  /** `operator[](i)`: corner `i` of a finite box takes `max` on axis `k` iff bit `k` of `i` is set. */
  function Corner(b: BBox, i: nat): (p: Point)
    requires b.Box? && i < 8
    ensures forall k :: 0 <= k < 3 ==> At(p, k) == At(if Bit(i, k) then b.max else b.min, k)
  {
    Vec3(if i % 2 == 1 then b.max.x else b.min.x,
         if (i / 2) % 2 == 1 then b.max.y else b.min.y,
         if (i / 4) % 2 == 1 then b.max.z else b.min.z)
  }

  /** `surface(b)`: twice the sum of the face areas. */
  function Surface(b: BBox): real
    requires b.Box?
  {
    var d := Sub(b.max, b.min);
    2.0 * (d.x * d.y + d.x * d.z + d.y * d.z)
  }

  /** `volume(b)`. */
  function Volume(b: BBox): real
    requires b.Box?
  {
    var d := Sub(b.max, b.min);
    d.x * d.y * d.z
  }

  // ---------------------------------------------------------------------------------------
  // Properties of the constructors and of union

  /** Adding a point to the default box gives the box of that point, in both forms. */
  lemma AddPointToEmpty(p: Point)
    ensures AddPoint(Empty, p) == FromPoint(p)
    ensures Merge(Empty, FromPoint(p)) == FromPoint(p)
  {
  }

  lemma FromPointsSymmetric(p1: Point, p2: Point)
    ensures FromPoints(p1, p2) == FromPoints(p2, p1)
  {
  }

  /** `BBox(p1, p2)` is the smallest box holding both points: any box that contains them
      contains every point of it. */
  lemma FromPointsSmallest(p1: Point, p2: Point, c: BBox, p: Point)
    requires Contains(c, p1) && Contains(c, p2) && Contains(FromPoints(p1, p2), p)
    ensures Contains(c, p)
  {
  }

  /** `b1 + b2` contains every point of either operand (unless both are the default box). */
  lemma {:induction false} UnionContainsOperands(b1: BBox, b2: BBox, p: Point)
    requires Contains(b1, p) || Contains(b2, p)
    ensures Contains(Union(b1, b2), p)
    ensures Contains(Merge(b1, b2), p)
  {
    var m := Merge(b1, b2);
    assert Contains(m, p) by {
      forall i | 0 <= i < 3
        ensures Le(Lo(m, i), Fin(At(p, i))) && Le(Fin(At(p, i)), Hi(m, i))
      {
        LeTotalOrder(Lo(b1, i), Lo(b2, i), Fin(At(p, i)));
        LeTotalOrder(Lo(b2, i), Lo(b1, i), Fin(At(p, i)));
        LeTotalOrder(Fin(At(p, i)), Hi(b1, i), Hi(b2, i));
        LeTotalOrder(Fin(At(p, i)), Hi(b2, i), Hi(b1, i));
      }
    }
    if m.Box? {
      assert Proper(m) by {
        forall i | 0 <= i < 3 ensures At(m.min, i) <= At(m.max, i) {
          assert Le(Lo(m, i), Fin(At(p, i))) && Le(Fin(At(p, i)), Hi(m, i));
        }
      }
    }
  }

  /** `b1 += b2` and `b1 + b2` agree whenever `b1 + b2` is not re-ordered, i.e. for proper boxes. */
  lemma UnionOfProperBoxes(b1: BBox, b2: BBox)
    requires Proper(b1) && Proper(b2)
    ensures Proper(Merge(b1, b2))
    ensures Union(b1, b2) == Merge(b1, b2)
  {
    var m := Merge(b1, b2);
    assert At(b1.min, 0) <= At(b1.max, 0) && At(b1.min, 1) <= At(b1.max, 1) && At(b1.min, 2) <= At(b1.max, 2);
    assert Proper(m);
  }

  /** Adding a point the box already contains changes nothing. */
  lemma AddContainedPoint(b: BBox, p: Point)
    requires Contains(b, p)
    ensures AddPoint(b, p) == b
    ensures Merge(b, FromPoint(p)) == b
  {
    if b.Box? {
      assert Proper(b) by {
        assert forall i :: 0 <= i < 3 ==> Le(Lo(b, i), Fin(At(p, i))) && Le(Fin(At(p, i)), Hi(b, i));
      }
    }
  }

  /** Every corner of a proper box lies in the box. */
  lemma CornerContained(b: BBox, i: nat)
    requires Proper(b) && i < 8
    ensures Contains(b, Corner(b, i))
  {
  }

  /** Merging the eight corners into the default box, as transforming a box does, rebuilds a
      proper box exactly. */
  lemma CornersRebuildBox(b: BBox)
    requires Proper(b)
    ensures CornerHull(b, 8) == b
  {
    var mn, mx := b.min, b.max;
    assert CornerHull(b, 1) == FromPoint(mn);
    assert CornerHull(b, 2) == Box(mn, Vec3(mx.x, mn.y, mn.z));
    assert CornerHull(b, 3) == Box(mn, Vec3(mx.x, mx.y, mn.z));
    assert CornerHull(b, 4) == Box(mn, Vec3(mx.x, mx.y, mn.z));
    assert CornerHull(b, 5) == Box(mn, mx);
    assert CornerHull(b, 6) == Box(mn, mx);
    assert CornerHull(b, 7) == Box(mn, mx);
    assert CornerHull(b, 8) == Box(mn, mx);
  }

  /** The merge of corners `0 .. k-1` into the default box. */
  function CornerHull(b: BBox, k: nat): BBox
    requires b.Box? && k <= 8
  {
    if k == 0 then Empty else Merge(CornerHull(b, k - 1), FromPoint(Corner(b, k - 1)))
  }

  /** The values the bbox tests compare against, for the box spanning [-1, 1] on every axis. */
  lemma BoxTestValues()
    ensures FromPoints(Splat(-1.0), Splat(1.0)) == FromPoints(Splat(1.0), Splat(-1.0))
    ensures Surface(FromPoints(Splat(-1.0), Splat(1.0))) == 24.0
    ensures Volume(FromPoints(Splat(-1.0), Splat(1.0))) == 8.0
    ensures Corner(FromPoints(Splat(-1.0), Splat(1.0)), 0) == Vec3(-1.0, -1.0, -1.0)
    ensures Corner(FromPoints(Splat(-1.0), Splat(1.0)), 5) == Vec3(1.0, -1.0, 1.0)
    ensures Corner(FromPoints(Splat(-1.0), Splat(1.0)), 7) == Vec3(1.0, 1.0, 1.0)
    ensures Union(FromPoints(Splat(-1.0), Splat(0.0)), FromPoints(Splat(0.0), Splat(1.0)))
         == FromPoints(Splat(-1.0), Splat(1.0))
  {
    var b := FromPoints(Splat(-1.0), Splat(1.0));
    assert b == Box(Splat(-1.0), Splat(1.0));
    assert Sub(b.max, b.min) == Splat(2.0);
  }

  /** As written, `operator+` re-orders the corners it has combined through the two-point
      constructor, so the sum of two default boxes is the infinite box rather than the default
      box: `min(+inf, -inf)` becomes the new `min`. */
  lemma UnionOfEmptiesIsUnbounded()
    ensures Union(Empty, Empty) == Unbounded
    ensures forall p :: Contains(Union(Empty, Empty), p)
    ensures forall p :: !Contains(Empty, p)
  {
  }

  /** The in-place `+=` keeps the default box as the identity on both sides, which is what `+`
      evidently intends. */
  lemma MergeHasEmptyIdentity(b: BBox)
    ensures Merge(Empty, b) == b && Merge(b, Empty) == b
    ensures forall p :: Contains(Merge(Empty, Empty), p) <==> Contains(Empty, p)
  {
  }

  // ---------------------------------------------------------------------------------------
  // The slab test `intersects`

  /** Outcome of the slab test: a miss, or the parametric range `[tmin, tmax]` inside the box. */
  datatype Slab = Miss | Hit(tmin: ExtReal, tmax: ExtReal)

  /** One pass of the loop body of `intersects` on axis `i`. */
  function SlabStep(b: BBox, r: Ray, i: nat, tmin: ExtReal, tmax: ExtReal): Slab
    requires i < 3
  {
    var ro, rd := At(r.o, i), At(r.d, i);
    var bmin, bmax := Lo(b, i), Hi(b, i);
    if AlmostZero(rd) then
      if Lt(Fin(ro), bmin) || Lt(bmax, Fin(ro)) then Miss else Hit(tmin, tmax)
    else
      var invRd := 1.0 / rd;
      var t1 := Times(Shift(bmin, -ro), invRd);
      var t2 := Times(Shift(bmax, -ro), invRd);
      var near := if Lt(t2, t1) then t2 else t1;
      var far := if Lt(t2, t1) then t1 else t2;
      var tmin' := if Lt(tmin, near) then near else tmin;
      var tmax' := if Lt(far, tmax) then far else tmax;
      if Lt(tmax', tmin') then Miss else Hit(tmin', tmax')
  }

  /** The loop of `intersects` from axis `i` on. */
  function SlabFrom(b: BBox, r: Ray, i: nat, tmin: ExtReal, tmax: ExtReal): Slab
    requires i <= 3
    decreases 3 - i
  {
    if i == 3 then Hit(tmin, tmax)
    else
      match SlabStep(b, r, i, tmin, tmax)
      case Miss => Miss
      case Hit(lo, hi) => SlabFrom(b, r, i + 1, lo, hi)
  }

  /** `intersects` as a value: it starts from `tmin = 0` and `tmax = +inf`. */
  function SlabTest(b: BBox, r: Ray): Slab {
    SlabFrom(b, r, 0, Fin(0.0), PosInf)
  }

  /** `intersects(r, tmin, tmax)`: the slab test, one axis at a time. */
  method Intersects(b: BBox, r: Ray) returns (hit: bool, tmin: ExtReal, tmax: ExtReal)
    ensures hit <==> SlabTest(b, r).Hit?
    ensures hit ==> tmin == SlabTest(b, r).tmin && tmax == SlabTest(b, r).tmax
  {
    tmin, tmax := Fin(0.0), PosInf;
    for i := 0 to 3
      invariant SlabFrom(b, r, i, tmin, tmax) == SlabTest(b, r)
    {
      var ro, rd := At(r.o, i), At(r.d, i);
      var bmin, bmax := Lo(b, i), Hi(b, i);
      if AlmostZero(rd) {
        if Lt(Fin(ro), bmin) || Lt(bmax, Fin(ro)) {
          return false, tmin, tmax;
        }
        continue;
      }
      var invRd := 1.0 / rd;
      var t1 := Times(Shift(bmin, -ro), invRd);
      var t2 := Times(Shift(bmax, -ro), invRd);
      if Lt(t2, t1) {
        t1, t2 := t2, t1;
      }
      if Lt(tmin, t1) {
        tmin := t1;
      }
      if Lt(t2, tmax) {
        tmax := t2;
      }
      if Lt(tmax, tmin) {
        return false, tmin, tmax;
      }
    }
    hit := true;
  }

  /** Whenever the slab test reports a hit, `0 <= tmin <= tmax` and `tmin` is finite. */
  lemma {:induction false} SlabHitRange(b: BBox, r: Ray)
    ensures SlabTest(b, r).Hit? ==>
      SlabTest(b, r).tmin.Fin? && 0.0 <= SlabTest(b, r).tmin.r && Le(SlabTest(b, r).tmin, SlabTest(b, r).tmax)
  {
    SlabFromRange(b, r, 0, 0.0, PosInf);
  }

  lemma {:induction false} SlabFromRange(b: BBox, r: Ray, i: nat, lo: real, hi: ExtReal)
    requires i <= 3 && 0.0 <= lo && Le(Fin(lo), hi)
    ensures var s := SlabFrom(b, r, i, Fin(lo), hi);
      s.Hit? ==> s.tmin.Fin? && lo <= s.tmin.r && Le(s.tmin, s.tmax)
    decreases 3 - i
  {
    if i < 3 {
      match SlabStep(b, r, i, Fin(lo), hi)
      case Miss =>
      case Hit(lo', hi') =>
        SlabStepRange(b, r, i, lo, hi);
        SlabFromRange(b, r, i + 1, lo'.r, hi');
    }
  }

  /** One axis keeps the lower bound finite and non-decreasing and the range non-empty. */
  lemma SlabStepRange(b: BBox, r: Ray, i: nat, lo: real, hi: ExtReal)
    requires i < 3 && Le(Fin(lo), hi)
    ensures var s := SlabStep(b, r, i, Fin(lo), hi);
      s.Hit? ==> s.tmin.Fin? && lo <= s.tmin.r && Le(s.tmin, s.tmax)
  {
    var rd := At(r.d, i);
    if !AlmostZero(rd) {
      var invRd := 1.0 / rd;
      var t1 := Times(Shift(Lo(b, i), -At(r.o, i)), invRd);
      var t2 := Times(Shift(Hi(b, i), -At(r.o, i)), invRd);
      assert t1 != PosInf || t2 != PosInf;
      var near := if Lt(t2, t1) then t2 else t1;
      assert near != PosInf;
    }
  }

  /** The ray point at `t` lies within the slab of a proper box on axis `i`; for an axis
      the ray is almost parallel to, its origin must. */
  predicate AxisInside(b: BBox, r: Ray, i: nat, t: real)
    requires b.Box? && i < 3
  {
    if AlmostZero(At(r.d, i)) then At(b.min, i) <= At(r.o, i) <= At(b.max, i)
    else At(b.min, i) <= At(r.o, i) + t * At(r.d, i) <= At(b.max, i)
  }

  /** The slab test is exact for a proper box: `t` lies in the reported range iff `t >= 0` and the
      ray point at `t` lies within every slab (the origin, on axes almost parallel to the ray). */
  lemma SlabTestExact(b: BBox, r: Ray, t: real)
    requires Proper(b)
    ensures var s := SlabTest(b, r);
      (s.Hit? && Le(s.tmin, Fin(t)) && Le(Fin(t), s.tmax)) <==>
      (0.0 <= t && forall i :: 0 <= i < 3 ==> AxisInside(b, r, i, t))
  {
    SlabFromExact(b, r, 0, 0.0, PosInf, t);
  }

  lemma {:induction false} SlabFromExact(b: BBox, r: Ray, i: nat, lo: real, hi: ExtReal, t: real)
    requires Proper(b) && i <= 3
    ensures var s := SlabFrom(b, r, i, Fin(lo), hi);
      (s.Hit? ==> s.tmin.Fin?) &&
      ((s.Hit? && Le(s.tmin, Fin(t)) && Le(Fin(t), s.tmax)) <==>
       (lo <= t && Le(Fin(t), hi) && forall j :: i <= j < 3 ==> AxisInside(b, r, j, t)))
    decreases 3 - i
  {
    if i < 3 {
      SlabStepExact(b, r, i, lo, hi, t);
      match SlabStep(b, r, i, Fin(lo), hi)
      case Miss =>
      case Hit(lo', hi') =>
        SlabFromExact(b, r, i + 1, lo'.r, hi', t);
    }
  }

  /** One axis of the slab test on a proper box narrows `[lo, hi]` to exactly the parameters
      whose ray point lies in that axis's slab. */
  lemma SlabStepExact(b: BBox, r: Ray, i: nat, lo: real, hi: ExtReal, t: real)
    requires Proper(b) && i < 3
    ensures var s := SlabStep(b, r, i, Fin(lo), hi);
      (s.Hit? ==> s.tmin.Fin?) &&
      ((s.Hit? && Le(s.tmin, Fin(t)) && Le(Fin(t), s.tmax)) <==>
       (lo <= t && Le(Fin(t), hi) && AxisInside(b, r, i, t)))
  {
    if !AlmostZero(At(r.d, i)) {
      var near, far := SlabEntry(b, r, i), SlabExit(b, r, i);
      SlabStepOfBox(b, r, i, lo, hi);
      AxisInsideBetween(b, r, i, t);
      var tmin' := MaxR(lo, near);
      var tmax' := if Lt(Fin(far), hi) then Fin(far) else hi;
      assert tmin' <= t <==> lo <= t && near <= t;
      assert Le(Fin(t), tmax') <==> t <= far && Le(Fin(t), hi);
      LeTotalOrder(Fin(tmin'), Fin(t), tmax');
    }
  }

  /** The parameter at which the ray from `ro` along `rd` crosses the plane at `bound`. */
  function SlabParam(bound: real, ro: real, rd: real): real
    requires rd != 0.0
  {
    (bound - ro) * (1.0 / rd)
  }

  /** The parameter at which the ray enters the slab of a finite box on axis `i`. */
  function SlabEntry(b: BBox, r: Ray, i: nat): real
    requires b.Box? && i < 3 && !AlmostZero(At(r.d, i))
  {
    MinR(SlabParam(At(b.min, i), At(r.o, i), At(r.d, i)), SlabParam(At(b.max, i), At(r.o, i), At(r.d, i)))
  }

  /** The parameter at which the ray leaves the slab of a finite box on axis `i`. */
  function SlabExit(b: BBox, r: Ray, i: nat): real
    requires b.Box? && i < 3 && !AlmostZero(At(r.d, i))
  {
    MaxR(SlabParam(At(b.min, i), At(r.o, i), At(r.d, i)), SlabParam(At(b.max, i), At(r.o, i), At(r.d, i)))
  }

  /** On an axis the ray is not almost parallel to, one step of the slab test on a finite box
      intersects `[lo, hi]` with `[SlabEntry, SlabExit]`. */
  lemma SlabStepOfBox(b: BBox, r: Ray, i: nat, lo: real, hi: ExtReal)
    requires b.Box? && i < 3 && !AlmostZero(At(r.d, i))
    ensures var near, far := SlabEntry(b, r, i), SlabExit(b, r, i);
      var tmin' := MaxR(lo, near);
      var tmax' := if Lt(Fin(far), hi) then Fin(far) else hi;
      SlabStep(b, r, i, Fin(lo), hi) == if Lt(tmax', Fin(tmin')) then Miss else Hit(Fin(tmin'), tmax')
  {
    var ro, rd := At(r.o, i), At(r.d, i);
    var invRd := 1.0 / rd;
    var t1 := (At(b.min, i) - ro) * invRd;
    var t2 := (At(b.max, i) - ro) * invRd;
    assert Times(Shift(Lo(b, i), -ro), invRd) == Fin(t1);
    assert Times(Shift(Hi(b, i), -ro), invRd) == Fin(t2);
    assert SlabEntry(b, r, i) == MinR(t1, t2);
    assert SlabExit(b, r, i) == MaxR(t1, t2);
    var near := if Lt(Fin(t2), Fin(t1)) then Fin(t2) else Fin(t1);
    var far := if Lt(Fin(t2), Fin(t1)) then Fin(t1) else Fin(t2);
    assert near == Fin(MinR(t1, t2)) && far == Fin(MaxR(t1, t2));
  }

  lemma AxisInsideBetween(b: BBox, r: Ray, i: nat, t: real)
    requires Proper(b) && i < 3 && !AlmostZero(At(r.d, i))
    ensures AxisInside(b, r, i, t) <==> SlabEntry(b, r, i) <= t <= SlabExit(b, r, i)
  {
    var bmin, bmax, ro, rd := At(b.min, i), At(b.max, i), At(r.o, i), At(r.d, i);
    assert bmin <= bmax;
    assert AxisInside(b, r, i, t) <==> bmin <= ro + t * rd <= bmax;
    SlabBetween(bmin, bmax, ro, rd, t);
  }

  /** The arithmetic behind one slab: with `inv = 1 / rd`, the parameter `t` lies between
      `(bmin - ro) * inv` and `(bmax - ro) * inv` iff `ro + t * rd` lies between `bmin` and `bmax`. */
  lemma SlabBetween(bmin: real, bmax: real, ro: real, rd: real, t: real)
    requires bmin <= bmax && rd != 0.0
    ensures var t1, t2 := SlabParam(bmin, ro, rd), SlabParam(bmax, ro, rd);
      (MinR(t1, t2) <= t <= MaxR(t1, t2)) <==> (bmin <= ro + t * rd <= bmax)
  {
    var t1, t2 := SlabParam(bmin, ro, rd), SlabParam(bmax, ro, rd);
    MulReciprocal(bmin - ro, rd);
    MulReciprocal(bmax - ro, rd);
    SlabBetweenScaled(bmin - ro, bmax - ro, rd, t1, t2, t);
  }

  /** `a * (1 / k) * k == a` for a non-zero `k`. */
  lemma MulReciprocal(a: real, k: real)
    requires k != 0.0
    ensures a * (1.0 / k) * k == a
  {
  }

  /** The slab step with the division already done: `t1 * rd == lo` and `t2 * rd == hi`. */
  lemma SlabBetweenScaled(lo: real, hi: real, rd: real, t1: real, t2: real, t: real)
    requires lo <= hi && rd != 0.0 && t1 * rd == lo && t2 * rd == hi
    ensures (MinR(t1, t2) <= t <= MaxR(t1, t2)) <==> (lo <= t * rd <= hi)
  {
    if rd > 0.0 {
      MulMonotone(t1, t2, rd);
      MulMonotone(t1, t, rd);
      MulMonotone(t, t2, rd);
    } else {
      MulAntitone(t2, t1, rd);
      MulAntitone(t2, t, rd);
      MulAntitone(t, t1, rd);
    }
  }

  /** Multiplying by a positive factor preserves order. */
  lemma MulMonotone(a: real, b: real, k: real)
    requires k > 0.0
    ensures a <= b <==> a * k <= b * k
  {
    if a <= b {
      assert (b - a) * k >= 0.0;
    } else {
      assert (a - b) * k > 0.0;
    }
  }

  /** Multiplying by a negative factor reverses order. */
  lemma MulAntitone(a: real, b: real, k: real)
    requires k < 0.0
    ensures a <= b <==> b * k <= a * k
  {
    if a <= b {
      assert (b - a) * k <= 0.0;
    } else {
      assert (a - b) * k < 0.0;
    }
  }

  /** The default box is hit, with range `[0, +inf]`, by every ray that has no almost-zero
      direction component, and missed by every other ray. */
  lemma SlabTestOfEmpty(r: Ray)
    ensures SlabTest(Empty, r) ==
      if AlmostZero(r.d.x) || AlmostZero(r.d.y) || AlmostZero(r.d.z) then Miss else Hit(Fin(0.0), PosInf)
  {
    assert At(r.d, 0) == r.d.x && At(r.d, 1) == r.d.y && At(r.d, 2) == r.d.z;
    if !AlmostZero(r.d.x) {
      assert SlabStep(Empty, r, 0, Fin(0.0), PosInf) == Hit(Fin(0.0), PosInf);
      if !AlmostZero(r.d.y) {
        assert SlabStep(Empty, r, 1, Fin(0.0), PosInf) == Hit(Fin(0.0), PosInf);
        if !AlmostZero(r.d.z) {
          assert SlabStep(Empty, r, 2, Fin(0.0), PosInf) == Hit(Fin(0.0), PosInf);
        }
      }
    }
  }

  // ---------------------------------------------------------------------------------------
  // Boxes updated in place

  /** A `BBox` variable that `+=` and `expand` update in place. */
  class BoxCell {
    var value: BBox

    constructor (b: BBox)
      ensures value == b
    {
      value := b;
    }

    /** `b1 += b2`. */
    method AddBox(b2: BBox)
      modifies this
      ensures value == Merge(old(value), b2)
    {
      value := Merge(value, b2);
    }

    /** `b += p`. */
    method AddPointAssign(p: Point)
      modifies this
      ensures value == Merge(old(value), FromPoint(p))
      ensures Contains(value, p)
      ensures forall q :: old(Contains(value, q)) ==> Contains(value, q)
    {
      value := Merge(value, FromPoint(p));
      forall q | old(Contains(value, q)) ensures Contains(value, q) {
        UnionContainsOperands(old(value), FromPoint(p), q);
      }
      UnionContainsOperands(old(value), FromPoint(p), p);
    }

    /** `expand(delta)`. */
    method Expand(delta: real)
      modifies this
      ensures value == Expanded(old(value), delta)
    {
      value := Expanded(value, delta);
    }
  }
}

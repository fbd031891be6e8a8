/** Three-component vectors (include/core/vector.h) and rays (include/core/ray.h).
    `Vector`, `Point` and `Normal` have the same layout and share the templated operators,
    so one datatype models all three; the type synonyms keep the source's vocabulary. */
module Vectors {
  import opened Numeric

  datatype Vec3 = Vec3(x: real, y: real, z: real)

  type Vector = Vec3
  type Point = Vec3
  type Normal = Vec3

  /** `Vector(value)`: every component set to `value`. */
  function Splat(value: real): Vec3 {
    Vec3(value, value, value)
  }

  /** Coordinate `i` (0 = x, 1 = y, 2 = z), as the bbox and kd-tree code read `p[i]`. */
  function At(v: Vec3, i: nat): real
    requires i < 3
  {
    if i == 0 then v.x else if i == 1 then v.y else v.z
  }

  /** `v` with coordinate `i` replaced by `x`, as `v[i] = x` leaves it. */
  function With(v: Vec3, i: nat, x: real): (r: Vec3)
    requires i < 3
    ensures forall j :: 0 <= j < 3 ==> At(r, j) == if j == i then x else At(v, j)
  {
    if i == 0 then Vec3(x, v.y, v.z) else if i == 1 then Vec3(v.x, x, v.z) else Vec3(v.x, v.y, x)
  }

  /** Unary minus: the additive inverse of `v`. */
  function Neg(v: Vec3): (r: Vec3)
    ensures Add(v, r) == Vec3(0.0, 0.0, 0.0)
  {
    Vec3(-v.x, -v.y, -v.z)
  }

  /** `operator==`: componentwise comparison, which is exactly value equality. */
  predicate Equal(a: Vec3, b: Vec3)
    ensures Equal(a, b) <==> a == b
  {
    a.x == b.x && a.y == b.y && a.z == b.z
  }

  /** `operator!=`: some component differs, which is exactly the negation of `==`. */
  predicate NotEqual(a: Vec3, b: Vec3)
    ensures NotEqual(a, b) <==> !Equal(a, b)
  {
    a.x != b.x || a.y != b.y || a.z != b.z
  }

  /** `v * c`. */
  function Scale(v: Vec3, c: real): Vec3 {
    Vec3(v.x * c, v.y * c, v.z * c)
  }

  /** `v / c`, computed as `v * (1 / c)`. */
  function Div(v: Vec3, c: real): (r: Vec3)
    requires c != 0.0
    ensures Scale(r, c) == v
  {
    Scale(v, 1.0 / c)
  }

  function Dot(a: Vec3, b: Vec3): real {
    a.x * b.x + a.y * b.y + a.z * b.z
  }

  /** `abs_dot`: the absolute value of the dot product. */
  function AbsDot(a: Vec3, b: Vec3): (r: real)
    ensures r >= 0.0 && (r == Dot(a, b) || r == -Dot(a, b))
  {
    Abs(Dot(a, b))
  }

  /** The cross product, which is perpendicular to both operands. */
  function Cross(a: Vec3, b: Vec3): (r: Vec3)
    ensures Dot(r, a) == 0.0 && Dot(r, b) == 0.0
  {
    Vec3(a.y * b.z - a.z * b.y, a.z * b.x - a.x * b.z, a.x * b.y - a.y * b.x)
  }

  function LengthSquared(v: Vec3): real {
    Dot(v, v)
  }

  /** Componentwise `std::min`: the greatest vector below both operands. */
  function MinV(a: Vec3, b: Vec3): (r: Vec3)
    ensures forall i :: 0 <= i < 3 ==> At(r, i) <= At(a, i) && At(r, i) <= At(b, i)
    ensures forall i :: 0 <= i < 3 ==> At(r, i) == At(a, i) || At(r, i) == At(b, i)
  {
    Vec3(MinR(a.x, b.x), MinR(a.y, b.y), MinR(a.z, b.z))
  }

  /** Componentwise `std::max`: the least vector above both operands. */
  function MaxV(a: Vec3, b: Vec3): (r: Vec3)
    ensures forall i :: 0 <= i < 3 ==> At(a, i) <= At(r, i) && At(b, i) <= At(r, i)
    ensures forall i :: 0 <= i < 3 ==> At(r, i) == At(a, i) || At(r, i) == At(b, i)
  {
    Vec3(MaxR(a.x, b.x), MaxR(a.y, b.y), MaxR(a.z, b.z))
  }

  /** `Vector + Vector` and `Point + Vector`. */
  function Add(a: Vec3, b: Vec3): Vec3 {
    Vec3(a.x + b.x, a.y + b.y, a.z + b.z)
  }

  /** `Vector - Vector`, `Point - Point` and `Point - Vector`: undoes `Add`. */
  function Sub(a: Vec3, b: Vec3): (r: Vec3)
    ensures Add(r, b) == a
  {
    Vec3(a.x - b.x, a.y - b.y, a.z - b.z)
  }

  /** `reflect(v, normal) = -v + (normal * dot(normal, -v) + v) * 2`. */
  function Reflect(v: Vec3, n: Vec3): Vec3 {
    Add(Neg(v), Scale(Add(Scale(n, Dot(n, Neg(v))), v), 2.0))
  }

  lemma NegInvolutive(v: Vec3)
    ensures Neg(Neg(v)) == v
    ensures Neg(v) == Scale(v, -1.0)
  {
  }

  lemma DivByScale(v: Vec3, c: real)
    requires c != 0.0
    ensures Div(v, c) == Scale(v, 1.0 / c)
    ensures Div(Scale(v, c), c) == v
  {
    var w := Scale(v, c);
    calc {
      Div(w, c);
      Vec3(v.x * c * (1.0 / c), v.y * c * (1.0 / c), v.z * c * (1.0 / c));
      v;
    }
  }

  /** `(p + v) - v == p` and `(p - v) + v == p`. */
  lemma PointVectorRoundTrip(p: Point, v: Vector)
    ensures Sub(Add(p, v), v) == p
    ensures Add(Sub(p, v), v) == p
    ensures Sub(p, p) == Vec3(0.0, 0.0, 0.0)
  {
  }

  lemma DotSymmetric(a: Vec3, b: Vec3)
    ensures Dot(a, b) == Dot(b, a)
    ensures Dot(a, a) >= 0.0
  {
  }

  /** `reflect(v, n) = v - 2 (n . v) n`: the mirror image of `v` in the plane orthogonal to `n`. */
  lemma ReflectFormula(v: Vec3, n: Vec3)
    ensures Reflect(v, n) == Sub(v, Scale(n, 2.0 * Dot(n, v)))
  {
    assert Dot(n, Neg(v)) == -Dot(n, v);
  }

  /** For a unit normal, reflection flips the component of `v` along the normal. */
  lemma ReflectFlipsNormalComponent(v: Vec3, n: Vec3)
    requires Dot(n, n) == 1.0
    ensures Dot(Reflect(v, n), n) == -Dot(v, n)
  {
    ReflectFormula(v, n);
    var d := Dot(n, v);
    calc {
      Dot(Reflect(v, n), n);
      (v.x - n.x * (2.0 * d)) * n.x + (v.y - n.y * (2.0 * d)) * n.y + (v.z - n.z * (2.0 * d)) * n.z;
      d - 2.0 * d * (n.x * n.x + n.y * n.y + n.z * n.z);
      -d;
    }
  }

  /** The values the vector tests compare against. */
  lemma DotCrossTestValues()
    ensures Dot(Vec3(1.0, 2.0, 3.0), Vec3(4.0, 5.0, 6.0)) == 32.0
    ensures Cross(Vec3(1.0, 2.0, 3.0), Vec3(4.0, 5.0, 6.0)) == Vec3(-3.0, 6.0, -3.0)
  {
  }

  /** Reflection about the y axis normal negates only the y component. */
  lemma ReflectAboutY(v: Vec3)
    ensures Reflect(v, Vec3(0.0, 1.0, 0.0)) == Vec3(v.x, -v.y, v.z)
  {
  }

  lemma ReflectTestValue()
    ensures Reflect(Vec3(1.0, -1.0, 1.0), Vec3(0.0, 1.0, 0.0)) == Vec3(1.0, 1.0, 1.0)
  {
    ReflectAboutY(Vec3(1.0, -1.0, 1.0));
  }

  lemma MinMaxTestValues()
    ensures MinV(Vec3(1.0, 5.0, 3.0), Vec3(4.0, 2.0, 6.0)) == Vec3(1.0, 2.0, 3.0)
    ensures MaxV(Vec3(1.0, 5.0, 3.0), Vec3(4.0, 2.0, 6.0)) == Vec3(4.0, 5.0, 6.0)
  {
  }

  /** A ray: origin and direction. */
  datatype Ray = Ray(o: Point, d: Vector)

  /** `ray(t) = o + d * t`. */
  function RayAt(r: Ray, t: real): (p: Point)
    ensures forall i :: 0 <= i < 3 ==> At(p, i) == At(r.o, i) + t * At(r.d, i)
  {
    Add(r.o, Scale(r.d, t))
  }

  /** A vector, point or normal variable that the compound operators update in place. */
  class VecCell {
    var x: real
    var y: real
    var z: real

    function Value(): Vec3
      reads this
    {
      Vec3(x, y, z)
    }

    constructor (v: Vec3)
      ensures Value() == v
    {
      x, y, z := v.x, v.y, v.z;
    }

    /** `v *= c`. */
    method MulAssign(c: real)
      modifies this
      ensures Value() == Scale(old(Value()), c)
    {
      x := x * c;
      y := y * c;
      z := z * c;
    }

    /** `v /= c`, computed as `v *= 1 / c`. */
    method DivAssign(c: real)
      requires c != 0.0
      modifies this
      ensures Value() == Div(old(Value()), c)
    {
      MulAssign(1.0 / c);
    }

    /** `Vector += Vector` and `Point += Vector`. */
    method AddAssign(w: Vec3)
      modifies this
      ensures Value() == Add(old(Value()), w)
    {
      x := x + w.x;
      y := y + w.y;
      z := z + w.z;
    }

    /** `Vector -= Vector` and `Point -= Vector`. */
    method SubAssign(w: Vec3)
      modifies this
      ensures Value() == Sub(old(Value()), w)
    {
      x := x - w.x;
      y := y - w.y;
      z := z - w.z;
    }
  }
}

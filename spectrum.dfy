/** Coefficient spectra (src/core/spectrum.h): a fixed number of float coefficients updated in
    place by `for` loops. The template parameter `num_coefs` becomes the length of the array;
    two spectra combined by an operator always have the same length, which the methods require. */
module Spectra {
  import opened Numeric

  // ---------------------------------------------------------------------------------------
  // The elementwise operations on coefficient sequences

  function AddSeq(a: seq<real>, b: seq<real>): seq<real>
    requires |a| == |b|
  {
    seq(|a|, i requires 0 <= i < |a| => a[i] + b[i])
  }

  function SubSeq(a: seq<real>, b: seq<real>): seq<real>
    requires |a| == |b|
  {
    seq(|a|, i requires 0 <= i < |a| => a[i] - b[i])
  }

  function MulSeq(a: seq<real>, b: seq<real>): seq<real>
    requires |a| == |b|
  {
    seq(|a|, i requires 0 <= i < |a| => a[i] * b[i])
  }

  /** Elementwise division; the divisor has no zero coefficient. */
  function DivSeq(a: seq<real>, b: seq<real>): seq<real>
    requires |a| == |b| && NoZero(b)
  {
    seq(|a|, i requires 0 <= i < |a| => a[i] / b[i])
  }

  function ScaleSeq(a: seq<real>, k: real): seq<real> {
    seq(|a|, i requires 0 <= i < |a| => a[i] * k)
  }

  function ShrinkSeq(a: seq<real>, k: real): seq<real>
    requires k != 0.0
  {
    seq(|a|, i requires 0 <= i < |a| => a[i] / k)
  }

  /** `std::min(std::max(c, lo), hi)` on every coefficient. */
  function ClampSeq(a: seq<real>, lo: real, hi: real): seq<real> {
    seq(|a|, i requires 0 <= i < |a| => MinR(MaxR(a[i], lo), hi))
  }

  predicate NoZero(b: seq<real>) {
    forall i :: 0 <= i < |b| ==> b[i] != 0.0
  }

  predicate AllZero(s: seq<real>) {
    forall i :: 0 <= i < |s| ==> s[i] == 0.0
  }

  // ---------------------------------------------------------------------------------------
  // The spectrum object

  class CoefficientSpectrum {
    const c: array<real>

    function Coefs(): seq<real>
      reads this, c
    {
      c[..]
    }

    /** `CoefficientSpectrum(v)`: every coefficient set to `v`. */
    constructor (n: nat, v: real)
      ensures fresh(c) && c.Length == n
      ensures forall i :: 0 <= i < n ==> Coefs()[i] == v
    {
      var a := new real[n];
      var i := 0;
      while i < n
        invariant 0 <= i <= n
        invariant forall j :: 0 <= j < i ==> a[j] == v
      {
        a[i] := v;
        i := i + 1;
      }
      c := a;
    }

    /** The copy constructor: `CoefficientSpectrum result = *this`, and `RGB(const
        CoefficientSpectrum<3> &)`. */
    constructor CopyOf(s: CoefficientSpectrum)
      ensures fresh(c) && Coefs() == s.Coefs()
    {
      var a := new real[s.c.Length];
      var i := 0;
      while i < s.c.Length
        invariant 0 <= i <= s.c.Length
        invariant a[..i] == s.c[..i]
      {
        a[i] := s.c[i];
        i := i + 1;
      }
      c := a;
    }

    /** `RGB(r, g, b)`. */
    constructor Rgb(r: real, g: real, b: real)
      ensures fresh(c) && Coefs() == [r, g, b]
    {
      var a := new real[3];
      a[0], a[1], a[2] := r, g, b;
      c := a;
    }

    /** `operator==`: the first differing coefficient returns false. */
    method Equals(rhs: CoefficientSpectrum) returns (r: bool)
      requires rhs.c.Length == c.Length
      ensures r <==> Coefs() == rhs.Coefs()
    {
      var i := 0;
      while i < c.Length
        invariant 0 <= i <= c.Length
        invariant c[..i] == rhs.c[..i]
      {
        if c[i] != rhs.c[i] {
          assert Coefs()[i] != rhs.Coefs()[i];
          return false;
        }
        i := i + 1;
      }
      assert c[..] == c[..i] && rhs.c[..] == rhs.c[..i];
      return true;
    }

    /** `operator!=`: the negation of `==`. */
    method NotEquals(rhs: CoefficientSpectrum) returns (r: bool)
      requires rhs.c.Length == c.Length
      ensures r <==> Coefs() != rhs.Coefs()
    {
      var eq := Equals(rhs);
      r := !eq;
    }

    /** `operator+=`. `rhs` may be this very spectrum: coefficient `i` of `rhs` is read before
        coefficient `i` of this one is written. */
    method AddAssign(rhs: CoefficientSpectrum)
      requires rhs.c.Length == c.Length
      modifies c
      ensures Coefs() == AddSeq(old(Coefs()), old(rhs.Coefs()))
    {
      var i := 0;
      while i < c.Length
        invariant 0 <= i <= c.Length
        invariant forall j :: 0 <= j < i ==> c[j] == old(c[j]) + old(rhs.c[j])
        invariant forall j :: i <= j < c.Length ==> c[j] == old(c[j]) && rhs.c[j] == old(rhs.c[j])
      {
        c[i] := c[i] + rhs.c[i];
        i := i + 1;
      }
    }

    /** `operator-=`. */
    method SubAssign(rhs: CoefficientSpectrum)
      requires rhs.c.Length == c.Length
      modifies c
      ensures Coefs() == SubSeq(old(Coefs()), old(rhs.Coefs()))
    {
      var i := 0;
      while i < c.Length
        invariant 0 <= i <= c.Length
        invariant forall j :: 0 <= j < i ==> c[j] == old(c[j]) - old(rhs.c[j])
        invariant forall j :: i <= j < c.Length ==> c[j] == old(c[j]) && rhs.c[j] == old(rhs.c[j])
      {
        c[i] := c[i] - rhs.c[i];
        i := i + 1;
      }
    }

    /** `operator*=` with a spectrum. */
    method MulAssign(rhs: CoefficientSpectrum)
      requires rhs.c.Length == c.Length
      modifies c
      ensures Coefs() == MulSeq(old(Coefs()), old(rhs.Coefs()))
    {
      var i := 0;
      while i < c.Length
        invariant 0 <= i <= c.Length
        invariant forall j :: 0 <= j < i ==> c[j] == old(c[j]) * old(rhs.c[j])
        invariant forall j :: i <= j < c.Length ==> c[j] == old(c[j]) && rhs.c[j] == old(rhs.c[j])
      {
        c[i] := c[i] * rhs.c[i];
        i := i + 1;
      }
      ghost var want := MulSeq(old(Coefs()), old(rhs.Coefs()));
      assert forall j :: 0 <= j < c.Length ==> Coefs()[j] == want[j];
    }

    /** `operator/=` with a spectrum. */
    method DivAssign(rhs: CoefficientSpectrum)
      requires rhs.c.Length == c.Length && NoZero(rhs.Coefs())
      modifies c
      ensures Coefs() == DivSeq(old(Coefs()), old(rhs.Coefs()))
    {
      var i := 0;
      while i < c.Length
        invariant 0 <= i <= c.Length
        invariant forall j :: 0 <= j < i ==> c[j] == old(c[j]) / old(rhs.c[j])
        invariant forall j :: i <= j < c.Length ==> c[j] == old(c[j]) && rhs.c[j] == old(rhs.c[j])
      {
        assert rhs.c[i] == old(rhs.Coefs())[i];
        c[i] := c[i] / rhs.c[i];
        i := i + 1;
      }
    }

    /** `operator*=` with a float. */
    method ScaleAssign(k: real)
      modifies c
      ensures Coefs() == ScaleSeq(old(Coefs()), k)
    {
      var i := 0;
      while i < c.Length
        invariant 0 <= i <= c.Length
        invariant forall j :: 0 <= j < i ==> c[j] == old(c[j]) * k
        invariant forall j :: i <= j < c.Length ==> c[j] == old(c[j])
      {
        c[i] := c[i] * k;
        i := i + 1;
      }
      ghost var want := ScaleSeq(old(Coefs()), k);
      assert forall j :: 0 <= j < c.Length ==> Coefs()[j] == want[j];
    }

    /** `operator/=` with a float. */
    method ShrinkAssign(k: real)
      requires k != 0.0
      modifies c
      ensures Coefs() == ShrinkSeq(old(Coefs()), k)
    {
      var i := 0;
      while i < c.Length
        invariant 0 <= i <= c.Length
        invariant forall j :: 0 <= j < i ==> c[j] == old(c[j]) / k
        invariant forall j :: i <= j < c.Length ==> c[j] == old(c[j])
      {
        c[i] := c[i] / k;
        i := i + 1;
      }
    }

    /** `operator+`: a copy of this spectrum, then `+=`; neither operand changes. */
    method Plus(rhs: CoefficientSpectrum) returns (result: CoefficientSpectrum)
      requires rhs.c.Length == c.Length
      ensures fresh(result.c)
      ensures result.Coefs() == AddSeq(Coefs(), rhs.Coefs())
    {
      result := new CoefficientSpectrum.CopyOf(this);
      result.AddAssign(rhs);
    }

    /** `operator-`. */
    method Minus(rhs: CoefficientSpectrum) returns (result: CoefficientSpectrum)
      requires rhs.c.Length == c.Length
      ensures fresh(result.c)
      ensures result.Coefs() == SubSeq(Coefs(), rhs.Coefs())
    {
      result := new CoefficientSpectrum.CopyOf(this);
      result.SubAssign(rhs);
    }

    /** `operator*` with a spectrum. */
    method Times(rhs: CoefficientSpectrum) returns (result: CoefficientSpectrum)
      requires rhs.c.Length == c.Length
      ensures fresh(result.c)
      ensures result.Coefs() == MulSeq(Coefs(), rhs.Coefs())
    {
      result := new CoefficientSpectrum.CopyOf(this);
      result.MulAssign(rhs);
    }

    /** `operator/` with a spectrum. */
    method Over(rhs: CoefficientSpectrum) returns (result: CoefficientSpectrum)
      requires rhs.c.Length == c.Length && NoZero(rhs.Coefs())
      ensures fresh(result.c)
      ensures result.Coefs() == DivSeq(Coefs(), rhs.Coefs())
    {
      result := new CoefficientSpectrum.CopyOf(this);
      result.DivAssign(rhs);
    }

    /** `operator*` with a float. */
    method Scaled(k: real) returns (result: CoefficientSpectrum)
      ensures fresh(result.c)
      ensures result.Coefs() == ScaleSeq(Coefs(), k)
    {
      result := new CoefficientSpectrum.CopyOf(this);
      result.ScaleAssign(k);
    }

    /** `operator/` with a float. */
    method Shrunk(k: real) returns (result: CoefficientSpectrum)
      requires k != 0.0
      ensures fresh(result.c)
      ensures result.Coefs() == ShrinkSeq(Coefs(), k)
    {
      result := new CoefficientSpectrum.CopyOf(this);
      result.ShrinkAssign(k);
    }

    /** `operator[] const`: the source asserts the index is in range. */
    function Coef(i: int): (r: real)
      reads this, c
      requires 0 <= i < c.Length
      ensures r == Coefs()[i]
    {
      c[i]
    }

    /** `operator[]` used to store through the returned reference. */
    method SetCoef(i: int, v: real)
      requires 0 <= i < c.Length
      modifies c
      ensures Coefs() == old(Coefs())[i := v]
    {
      c[i] := v;
    }

    /** `is_black`: the first non-zero coefficient returns false. */
    method IsBlack() returns (r: bool)
      ensures r <==> AllZero(Coefs())
    {
      var i := 0;
      while i < c.Length
        invariant 0 <= i <= c.Length
        invariant forall j :: 0 <= j < i ==> c[j] == 0.0
      {
        if c[i] != 0.0 {
          assert Coefs()[i] != 0.0;
          return false;
        }
        i := i + 1;
      }
      return true;
    }

    /** `clamp(spectrum, min, max)`: a new spectrum, each coefficient clamped. */
    method Clamp(lo: real, hi: real) returns (result: CoefficientSpectrum)
      ensures fresh(result.c)
      ensures result.Coefs() == ClampSeq(Coefs(), lo, hi)
    {
      result := new CoefficientSpectrum(c.Length, 0.0);
      var i := 0;
      while i < c.Length
        invariant 0 <= i <= c.Length && result.c.Length == c.Length
        invariant forall j :: 0 <= j < i ==> result.c[j] == MinR(MaxR(c[j], lo), hi)
      {
        result.c[i] := MinR(MaxR(c[i], lo), hi);
        i := i + 1;
      }
    }
  }

  // ---------------------------------------------------------------------------------------
  // Properties of the elementwise operations

  /** `-=` undoes `+=`. */
  lemma AddThenSub(a: seq<real>, b: seq<real>)
    requires |a| == |b|
    ensures SubSeq(AddSeq(a, b), b) == a
  {
  }

  /** `+` does not depend on the order of its operands. */
  lemma AddCommutes(a: seq<real>, b: seq<real>)
    requires |a| == |b|
    ensures AddSeq(a, b) == AddSeq(b, a)
  {
  }

  /** `/=` by a spectrum undoes `*=` by it. */
  lemma MulThenDiv(a: seq<real>, b: seq<real>)
    requires |a| == |b| && NoZero(b)
    ensures DivSeq(MulSeq(a, b), b) == a
  {
    var r := DivSeq(MulSeq(a, b), b);
    forall i | 0 <= i < |a| ensures r[i] == a[i] {
      MulDiv(a[i], b[i]);
    }
  }

  /** `/=` by a float undoes `*=` by it. */
  lemma ScaleThenShrink(a: seq<real>, k: real)
    requires k != 0.0
    ensures ShrinkSeq(ScaleSeq(a, k), k) == a
  {
    var r := ShrinkSeq(ScaleSeq(a, k), k);
    forall i | 0 <= i < |a| ensures r[i] == a[i] {
      MulDiv(a[i], k);
    }
  }

  lemma MulDiv(x: real, k: real)
    requires k != 0.0
    ensures x * k / k == x
  {
  }

  /** With `lo <= hi` every clamped coefficient lies in `[lo, hi]`, and a coefficient already in
      the range is kept. */
  lemma ClampInRange(a: seq<real>, lo: real, hi: real)
    requires lo <= hi
    ensures |ClampSeq(a, lo, hi)| == |a|
    ensures forall i :: 0 <= i < |a| ==> lo <= ClampSeq(a, lo, hi)[i] <= hi
    ensures forall i :: 0 <= i < |a| && lo <= a[i] <= hi ==> ClampSeq(a, lo, hi)[i] == a[i]
  {
  }

  /** Clamping twice to the same range is clamping once. */
  lemma ClampIdempotent(a: seq<real>, lo: real, hi: real)
    requires lo <= hi
    ensures ClampSeq(ClampSeq(a, lo, hi), lo, hi) == ClampSeq(a, lo, hi)
  {
    ClampInRange(a, lo, hi);
  }

  /** With `lo > hi` the `min` applied last wins: every coefficient becomes `hi`. */
  lemma ClampInvertedRange(a: seq<real>, lo: real, hi: real)
    requires hi < lo
    ensures forall i :: 0 <= i < |a| ==> ClampSeq(a, lo, hi)[i] == hi
  {
  }

  /** A spectrum scaled by zero is black, and the sum of black spectra is black. */
  lemma BlackClosure(a: seq<real>, b: seq<real>)
    requires |a| == |b|
    ensures AllZero(ScaleSeq(a, 0.0))
    ensures AllZero(a) && AllZero(b) ==> AllZero(AddSeq(a, b))
  {
  }

  /** `s - s` is black for every spectrum. */
  lemma SelfDifferenceIsBlack(a: seq<real>)
    ensures AllZero(SubSeq(a, a))
  {
  }
}

/** The film (src/core/film.h): a row-major buffer of pixels, each an accumulated radiance and an
    accumulated filter weight, and a 16 x 16 table of filter values. The filter itself
    (`Filter::evaluate`) is a function-valued parameter; `ceil` and `floor` are the integer
    functions of `Numeric`. The film's spectra are RGB values, modelled as sequences of three
    coefficients combined with the elementwise operations of `Spectra`. */
module Films {
  import opened Numeric
  import opened Spectra
  import opened Samplers

  /** `FilterTableSize`. */
  const TableSize: int := 16

  /** The film's view of a filter: its half-width and half-height, their reciprocals, and its
      value at an offset from the window's centre. */
  datatype Filter = Filter(width: real, height: real, invWidth: real, invHeight: real,
                           evaluate: (real, real) -> real)

  datatype Pixel = Pixel(radiance: seq<real>, weight: real)

  /** Entry `(x, y)` of the filter table: the filter at the centre of cell `(x, y)` of the
      positive quadrant of its window. */
  function TableEntry(f: Filter, x: int, y: int): real {
    f.evaluate((0.5 + x as real) * f.width / TableSize as real, (0.5 + y as real) * f.height / TableSize as real)
  }

  /** Where row `y` of a buffer with rows of `width` entries starts: `y * width`, written as
      repeated addition so that the solver only meets the product through
      `RowStartIsProduct`. */
  function RowStart(width: nat, y: nat): nat {
    if y == 0 then 0 else RowStart(width, y - 1) + width
  }

  lemma {:induction false} RowStartIsProduct(width: nat, y: nat)
    ensures RowStart(width, y) == y * width
  {
    if y > 0 {
      RowStartIsProduct(width, y - 1);
    }
  }

  /** Later rows start at least a whole row further on. */
  lemma {:induction false} RowStartGrows(width: nat, y: nat, y': nat)
    requires y < y'
    ensures RowStart(width, y) + width <= RowStart(width, y')
  {
    if y + 1 < y' {
      RowStartGrows(width, y, y' - 1);
    }
  }

  /** Where pixel `(x, y)` lives in a row-major buffer with rows of `width` pixels:
      `y * width + x`. */
  function PixelIndex(width: nat, x: int, y: nat): int {
    RowStart(width, y) + x
  }

  /** The number of pixels of a `width` by `height` image. */
  function Area(width: nat, height: nat): nat {
    RowStart(width, height)
  }

  lemma PixelIndexInImage(width: nat, height: nat, x: int, y: nat)
    requires 0 <= x < width && y < height
    ensures 0 <= PixelIndex(width, x, y) < Area(width, height)
  {
    RowStartGrows(width, y, height);
    if y > 0 {
      RowStartGrows(width, 0, y);
    }
  }

  /** Different pixels of a row of width `width` have different indices. */
  lemma PixelIndexInjective(width: nat, x: int, y: nat, x': int, y': nat)
    requires 0 <= x < width && 0 <= x' < width
    ensures PixelIndex(width, x, y) == PixelIndex(width, x', y') <==> x == x' && y == y'
  {
    if y < y' {
      RowStartGrows(width, y, y');
    } else if y' < y {
      RowStartGrows(width, y', y);
    }
  }

  /** The row of the filter table, or its column: `|p - d| * inv * 16` rounded down and capped
      at 15. With a non-negative reciprocal it indexes the table. */
  function FilterIndex(p: int, d: real, inv: real): (r: int)
    ensures r <= TableSize - 1
    ensures inv >= 0.0 ==> 0 <= r
  {
    var a := Abs(p as real - d);
    assert inv >= 0.0 ==> a * inv >= 0.0;
    MinI(TableSize - 1, Floor(a * inv * TableSize as real))
  }

  /** The clamped range of pixels a sample reaches on one axis: from `ceil(d - radius)` but not
      below 0, to `floor(d + radius)` but not past `res - 1`. */
  datatype Span = Span(lo: int, hi: int)

  function SampleSpan(d: real, radius: real, res: int): (r: Span)
    ensures 0 <= r.lo && r.hi <= res - 1
  {
    Span(MaxI(0, Ceil(d - radius)), MinI(res - 1, Floor(d + radius)))
  }

  /** `pixel.radiance += radiance * weight; pixel.weight += weight`. */
  function Accumulate(p: Pixel, radiance: seq<real>, w: real): Pixel
    requires |p.radiance| == |radiance|
  {
    Pixel(AddSeq(p.radiance, ScaleSeq(radiance, w)), p.weight + w)
  }

  /** What `get_pixel` returns for a pixel: black when the weight is almost zero, otherwise the
      weighted radiance clamped to `[0, 1]`. */
  function PixelValue(p: Pixel): (r: seq<real>)
    requires |p.radiance| == 3
    ensures |r| == 3
    ensures forall i :: 0 <= i < 3 ==> 0.0 <= r[i] <= 1.0
    ensures AlmostZero(p.weight) ==> AllZero(r)
    ensures !AlmostZero(p.weight) ==> r == ClampSeq(ShrinkSeq(p.radiance, p.weight), 0.0, 1.0)
  {
    if AlmostZero(p.weight) then [0.0, 0.0, 0.0]
    else
      ClampInRange(ShrinkSeq(p.radiance, p.weight), 0.0, 1.0);
      ClampSeq(ShrinkSeq(p.radiance, p.weight), 0.0, 1.0)
  }

  /** `_ydim = _xdim * (_yres / _xres)` as written: the ratio is an integer division. */
  function FilmHeight(xres: int, yres: int): real
    requires xres > 0 && yres >= 0
  {
    2.0 * ((yres / xres) as real)
  }

  /** A landscape film (fewer rows than columns) gets height 0. */
  lemma LandscapeFilmIsFlat(xres: int, yres: int)
    requires 0 <= yres < xres
    ensures FilmHeight(xres, yres) == 0.0
  {
  }

  /** The height that keeps the film's aspect ratio: `_xdim * _yres / _xres` in floating point. */
  function FilmHeightExact(xres: int, yres: int): (r: real)
    requires xres > 0 && yres >= 0
    ensures r * xres as real == 2.0 * yres as real
    ensures yres > 0 ==> r > 0.0
  {
    2.0 * (yres as real) / (xres as real)
  }

  /** A pixel the as-written constructor leaves with a non-zero weight, after one sample of
      weight 1 and radiance 0.5, reads 0.25 rather than the sample's 0.5. */
  lemma UninitialisedWeightSkews(w0: real, w: real, rad: seq<real>)
    requires w0 == 1.0 && w == 1.0 && rad == [0.5, 0.5, 0.5]
    ensures PixelValue(Accumulate(Pixel([0.0, 0.0, 0.0], w0), rad, w)) == [0.25, 0.25, 0.25]
  {
    var p := Accumulate(Pixel([0.0, 0.0, 0.0], w0), rad, w);
    assert p.weight == 2.0 && p.radiance == [0.5, 0.5, 0.5];
    assert ShrinkSeq(p.radiance, p.weight) == [0.25, 0.25, 0.25];
  }

  /** From a cleared pixel, one sample with a usable weight reads back as its own radiance
      (when that lies in `[0, 1]`): the pixel holds the weighted average of its samples. */
  lemma OneSampleRecovered(rad: seq<real>, w: real)
    requires |rad| == 3 && !AlmostZero(w)
    requires forall i :: 0 <= i < 3 ==> 0.0 <= rad[i] <= 1.0
    ensures PixelValue(Accumulate(Pixel([0.0, 0.0, 0.0], 0.0), rad, w)) == rad
  {
    var p := Accumulate(Pixel([0.0, 0.0, 0.0], 0.0), rad, w);
    assert p.weight == w;
    var q := ShrinkSeq(p.radiance, w);
    forall i | 0 <= i < 3 ensures q[i] == rad[i] {
      MulDiv(rad[i], w);
    }
    assert q == rad;
    ClampInRange(q, 0.0, 1.0);
  }

  /** The filter table filled row by row with a running index: entry `i` holds cell
      `(i % 16, i / 16)`. */
  method FillFilterTable(f: Filter) returns (table: array<real>)
    ensures fresh(table) && table.Length == TableSize * TableSize
    ensures forall i :: 0 <= i < table.Length ==> table[i] == TableEntry(f, i % TableSize, i / TableSize)
  {
    table := new real[TableSize * TableSize];
    var i := 0;
    var y := 0;
    while y < TableSize
      invariant 0 <= y <= TableSize && i == y * TableSize
      invariant forall j :: 0 <= j < i ==> table[j] == TableEntry(f, j % TableSize, j / TableSize)
    {
      var x := 0;
      while x < TableSize
        invariant 0 <= x <= TableSize && i == y * TableSize + x
        invariant forall j :: 0 <= j < i ==> table[j] == TableEntry(f, j % TableSize, j / TableSize)
      {
        table[i] := TableEntry(f, x, y);
        assert i % TableSize == x && i / TableSize == y;
        i := i + 1;
        x := x + 1;
      }
      y := y + 1;
    }
  }

  /** `new Pixel[n]`: black radiance, and the given weights. */
  method NewPixels(weights: seq<real>) returns (d: array<Pixel>)
    ensures fresh(d) && d.Length == |weights|
    ensures forall k :: 0 <= k < d.Length ==> d[k] == Pixel([0.0, 0.0, 0.0], weights[k])
  {
    d := new Pixel[|weights|];
    var k := 0;
    while k < |weights|
      invariant 0 <= k <= |weights|
      invariant forall j :: 0 <= j < k ==> d[j] == Pixel([0.0, 0.0, 0.0], weights[j])
    {
      d[k] := Pixel([0.0, 0.0, 0.0], weights[k]);
      k := k + 1;
    }
  }

  class Film {
    const xres: int
    const yres: int
    const xdim: real
    const ydim: real
    const filter: Filter
    const filterTable: array<real>
    const data: array<Pixel>

    predicate Valid()
      reads this, data
    {
      xres > 0 && yres >= 0 && data.Length == Area(xres, yres)
      && filterTable.Length == TableSize * TableSize
      && filter.invWidth >= 0.0 && filter.invHeight >= 0.0
      && (forall k :: 0 <= k < data.Length ==> |data[k].radiance| == 3)
      && forall y, x :: 0 <= y < yres && 0 <= x < xres ==> 0 <= PixelIndex(xres, x, y) < data.Length
    }

    /** `Film(xres, yres, filter)` as written. `new Pixel[n]` runs `Pixel`'s implicit default
        constructor, which sets the radiance to black but leaves `weight` uninitialised; the
        values it happens to hold are the parameter `leftover`. */
    constructor (xres: int, yres: int, filter: Filter, leftover: seq<real>)
      requires xres > 0 && yres >= 0 && filter.invWidth >= 0.0 && filter.invHeight >= 0.0
      requires |leftover| == Area(xres, yres)
      ensures Valid() && this.xres == xres && this.yres == yres && this.filter == filter
      ensures xdim == 2.0 && ydim == FilmHeight(xres, yres)
      ensures forall k :: 0 <= k < data.Length ==> data[k] == Pixel([0.0, 0.0, 0.0], leftover[k])
      ensures forall i :: 0 <= i < filterTable.Length ==>
        filterTable[i] == TableEntry(filter, i % TableSize, i / TableSize)
    {
      var d := NewPixels(leftover);
      var table := FillFilterTable(filter);
      forall y, x | 0 <= y < yres && 0 <= x < xres
        ensures 0 <= PixelIndex(xres, x, y) < Area(xres, yres)
      {
        PixelIndexInImage(xres, yres, x, y);
      }
      this.xres := xres;
      this.yres := yres;
      this.filter := filter;
      xdim := 2.0;
      ydim := FilmHeight(xres, yres);
      data := d;
      filterTable := table;
    }

    /** The film as evidently intended: every weight starts at 0 and the height keeps the
        aspect ratio. */
    constructor Corrected(xres: int, yres: int, filter: Filter)
      requires xres > 0 && yres >= 0 && filter.invWidth >= 0.0 && filter.invHeight >= 0.0
      ensures Valid() && this.xres == xres && this.yres == yres && this.filter == filter
      ensures xdim == 2.0 && ydim == FilmHeightExact(xres, yres)
      ensures forall k :: 0 <= k < data.Length ==> data[k] == Pixel([0.0, 0.0, 0.0], 0.0)
      ensures forall i :: 0 <= i < filterTable.Length ==>
        filterTable[i] == TableEntry(filter, i % TableSize, i / TableSize)
    {
      var d := NewPixels(seq(Area(xres, yres), _ => 0.0));
      var table := FillFilterTable(filter);
      forall y, x | 0 <= y < yres && 0 <= x < xres
        ensures 0 <= PixelIndex(xres, x, y) < Area(xres, yres)
      {
        PixelIndexInImage(xres, yres, x, y);
      }
      this.xres := xres;
      this.yres := yres;
      this.filter := filter;
      xdim := 2.0;
      ydim := FilmHeightExact(xres, yres);
      data := d;
      filterTable := table;
    }

    /** The table entry the source reads for pixel `(x, y)` and a sample centred at
        `(dx, dy)`. */
    function Weight(x: int, y: int, dx: real, dy: real): real
      reads this, filterTable
      requires filterTable.Length == TableSize * TableSize
      requires filter.invWidth >= 0.0 && filter.invHeight >= 0.0
    {
      var fx := FilterIndex(x, dx, filter.invWidth);
      var fy := FilterIndex(y, dy, filter.invHeight);
      filterTable[fy * TableSize + fx]
    }

    /** Pixel `(x, y)` lies in the window a sample reaches. */
    predicate InWindow(s: Sample, x: int, y: int) {
      var sx := SampleSpan(s.imageX - 0.5, filter.width, xres);
      var sy := SampleSpan(s.imageY - 0.5, filter.height, yres);
      sx.lo <= x <= sx.hi && sy.lo <= y <= sy.hi
    }

    /** `add_sample(sample, radiance)`: every pixel of the clamped window gains the radiance
        times its table weight, and the weight; every other pixel is unchanged. An empty window
        changes nothing (the source then reports to the error stream). */
    method AddSample(s: Sample, radiance: seq<real>)
      requires Valid() && |radiance| == 3
      modifies data
      ensures Valid()
      ensures forall y, x :: 0 <= y < yres && 0 <= x < xres ==>
        data[PixelIndex(xres, x, y)] ==
          if InWindow(s, x, y)
          then Accumulate(old(data[PixelIndex(xres, x, y)]), radiance, Weight(x, y, s.imageX - 0.5, s.imageY - 0.5))
          else old(data[PixelIndex(xres, x, y)])
    {
      var dx := s.imageX - 0.5;
      var dy := s.imageY - 0.5;
      var sx := SampleSpan(dx, filter.width, xres);
      var sy := SampleSpan(dy, filter.height, yres);
      var x0, x1, y0, y1 := sx.lo, sx.hi, sy.lo, sy.hi;
      if x1 - x0 < 0 || y1 - y0 < 0 {
        return;
      }
      var y := y0;
      while y <= y1
        invariant y0 <= y <= y1 + 1
        invariant Valid()
        invariant forall y', x' :: 0 <= y' < yres && 0 <= x' < xres ==>
          data[PixelIndex(xres, x', y')] ==
            if y0 <= y' < y && x0 <= x' <= x1
            then Accumulate(old(data[PixelIndex(xres, x', y')]), radiance, Weight(x', y', dx, dy))
            else old(data[PixelIndex(xres, x', y')])
      {
        var x := x0;
        while x <= x1
          invariant x0 <= x <= x1 + 1
          invariant Valid()
          invariant forall y', x' :: 0 <= y' < yres && 0 <= x' < xres ==>
            data[PixelIndex(xres, x', y')] ==
              if (y0 <= y' < y && x0 <= x' <= x1) || (y' == y && x0 <= x' < x)
              then Accumulate(old(data[PixelIndex(xres, x', y')]), radiance, Weight(x', y', dx, dy))
              else old(data[PixelIndex(xres, x', y')])
        {
          Splat(x, y, dx, dy, radiance);
          x := x + 1;
        }
        y := y + 1;
      }
    }

    /** One iteration of the inner loop of `add_sample`: pixel `(x, y)` gains the radiance
        times its table weight, and the weight. */
    method Splat(x: int, y: int, dx: real, dy: real, radiance: seq<real>)
      requires Valid() && 0 <= x < xres && 0 <= y < yres && |radiance| == 3
      modifies data
      ensures Valid()
      ensures forall y', x' :: 0 <= y' < yres && 0 <= x' < xres ==>
        data[PixelIndex(xres, x', y')] ==
          if x' == x && y' == y
          then Accumulate(old(data[PixelIndex(xres, x', y')]), radiance, Weight(x', y', dx, dy))
          else old(data[PixelIndex(xres, x', y')])
    {
      var fx := MinI(TableSize - 1, Floor(Abs(x as real - dx) * filter.invWidth * TableSize as real));
      var fy := MinI(TableSize - 1, Floor(Abs(y as real - dy) * filter.invHeight * TableSize as real));
      assert fx == FilterIndex(x, dx, filter.invWidth) && fy == FilterIndex(y, dy, filter.invHeight);
      var weight := filterTable[fy * TableSize + fx];
      var k := y * xres + x;
      RowStartIsProduct(xres, y);
      assert k == PixelIndex(xres, x, y);
      forall y', x' | 0 <= y' < yres && 0 <= x' < xres
        ensures PixelIndex(xres, x', y') == k <==> x' == x && y' == y
      {
        PixelIndexInjective(xres, x', y', x, y);
      }
      var p := data[k];
      data[k] := Pixel(AddSeq(p.radiance, ScaleSeq(radiance, weight)), p.weight + weight);
    }

    /** `get_pixel(x, y)`. */
    function GetPixel(x: int, y: int): (r: seq<real>)
      reads this, data
      requires Valid() && 0 <= x < xres && 0 <= y < yres
      ensures |r| == 3 && forall i :: 0 <= i < 3 ==> 0.0 <= r[i] <= 1.0
    {
      PixelValue(data[PixelIndex(xres, x, y)])
    }
  }
}

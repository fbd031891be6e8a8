/** The pixel-scanning samplers (src/sampler/stratified.cpp, src/sampler/random.cpp). Both keep a
    cursor `(x, y)` that walks the pixel window row by row and hand out one batch of `spp`
    samples per pixel; the two files run the same code, so one class models both and remembers
    which of the two it is. The random draws are a parameter: any values the generator returns. */
module Samplers {

  /** `Sample`: a position on the image and one on the lens. */
  datatype Sample = Sample(imageX: real, imageY: real, lensU: real, lensV: real)

  datatype SamplerKind = Stratified | Random

  /** The pixel window `[xMin, xMax] x [yMin, yMax]`, both ends included. */
  datatype Window = Window(xMin: int, xMax: int, yMin: int, yMax: int)

  /** The cursor after one batch: the next column, or the first column of the next row once the
      last column is passed. */
  function Next(w: Window, x: int, y: int): (r: (int, int))
    ensures r.1 == y || r.1 == y + 1
    ensures r.1 == y + 1 <==> x + 1 > w.xMax
    ensures r.1 == y ==> r.0 == x + 1
    ensures r.1 == y + 1 ==> r.0 == w.xMin
  {
    if x + 1 > w.xMax then (w.xMin, y + 1) else (x + 1, y)
  }

  /** The number of non-empty batches still to come from cursor `(x, y)`. */
  function BatchesFrom(w: Window, x: int, y: int): nat
    requires w.xMin <= x <= w.xMax
    decreases w.yMax - y + 1, w.xMax - x
  {
    if y > w.yMax then 0
    else
      var (x', y') := Next(w, x, y);
      1 + BatchesFrom(w, x', y')
  }

  /** From a cursor inside the window, one batch per remaining pixel of the current row and one
      per pixel of each later row. */
  lemma {:induction false} BatchesFromCount(w: Window, x: int, y: int)
    requires w.xMin <= x <= w.xMax && w.yMin <= y
    ensures y <= w.yMax + 1 ==>
      BatchesFrom(w, x, y) == if y > w.yMax then 0 else (w.yMax - y) * (w.xMax - w.xMin + 1) + (w.xMax - x) + 1
    decreases w.yMax - y + 1, w.xMax - x
  {
    if y <= w.yMax {
      var (x', y') := Next(w, x, y);
      BatchesFromCount(w, x', y');
      var width := w.xMax - w.xMin + 1;
      if y' == y + 1 {
        assert (w.yMax - y) * width == (w.yMax - y - 1) * width + width;
      }
    }
  }

  /** From the start of a non-empty window there is exactly one batch per pixel. */
  lemma AllPixelsVisited(w: Window)
    requires w.xMin <= w.xMax && w.yMin <= w.yMax
    ensures BatchesFrom(w, w.xMin, w.yMin) == (w.xMax - w.xMin + 1) * (w.yMax - w.yMin + 1)
  {
    BatchesFromCount(w, w.xMin, w.yMin);
    var width := w.xMax - w.xMin + 1;
    assert (w.yMax - w.yMin) * width + width == (w.yMax - w.yMin + 1) * width;
  }

  /** The `i`th sample of a batch at pixel `(x, y)` built from the four draws starting at
      `4 * i`. */
  function BatchSample(x: int, y: int, draws: seq<real>, i: nat): Sample
    requires 4 * i + 3 < |draws|
  {
    Sample(x as real + draws[4 * i], y as real + draws[4 * i + 1], draws[4 * i + 2], draws[4 * i + 3])
  }

  class PixelSampler {
    const kind: SamplerKind
    const window: Window
    const spp: int
    var x: int
    var y: int

    /** `StratifiedSampler(x_min, x_max, y_min, y_max, spp)`: the cursor at the window's first
        pixel. */
    constructor Stratified(xMin: int, xMax: int, yMin: int, yMax: int, samplesPerPixel: int)
      ensures kind == SamplerKind.Stratified && window == Window(xMin, xMax, yMin, yMax)
      ensures spp == samplesPerPixel && x == xMin && y == yMin
    {
      kind := SamplerKind.Stratified;
      window := Window(xMin, xMax, yMin, yMax);
      spp := samplesPerPixel;
      x := xMin;
      y := yMin;
    }

    /** `RandomSampler(x_min, x_max, y_min, y_max, spp)`: the same start. */
    constructor Random(xMin: int, xMax: int, yMin: int, yMax: int, samplesPerPixel: int)
      ensures kind == SamplerKind.Random && window == Window(xMin, xMax, yMin, yMax)
      ensures spp == samplesPerPixel && x == xMin && y == yMin
    {
      kind := SamplerKind.Random;
      window := Window(xMin, xMax, yMin, yMax);
      spp := samplesPerPixel;
      x := xMin;
      y := yMin;
    }

    /** `max_batch_size()`: no batch is larger than `spp`. */
    function MaxBatchSize(): (r: int)
      ensures r == spp
    {
      spp
    }

    /** `get_sample_batch(samples, rng)`. Past the last row it returns 0 and changes nothing;
        otherwise it fills `samples[0 .. spp)` for the current pixel, advances the cursor
        row-major and returns `spp`. */
    method GetSampleBatch(samples: array<Sample>, draws: seq<real>) returns (n: int)
      requires samples.Length >= MaxBatchSize() && |draws| >= 4 * MaxBatchSize()
      modifies this, samples
      ensures n == 0 || n == MaxBatchSize()
      ensures forall i :: 0 <= i < samples.Length && MaxBatchSize() <= i ==> samples[i] == old(samples[i])
      ensures old(y) > window.yMax ==> n == 0 && x == old(x) && y == old(y) && samples[..] == old(samples[..])
      ensures old(y) <= window.yMax ==> n == spp && (x, y) == Next(window, old(x), old(y))
      ensures old(y) <= window.yMax ==>
        forall i :: 0 <= i < samples.Length ==>
          samples[i] == if i < spp then BatchSample(old(x), old(y), draws, i) else old(samples[i])
    {
      if y > window.yMax {
        return 0;
      }
      var i := 0;
      while i < spp
        invariant 0 <= i && (spp <= 0 ==> i == 0) && (spp > 0 ==> i <= spp)
        invariant x == old(x) && y == old(y)
        invariant forall j :: 0 <= j < samples.Length ==>
          samples[j] == if 0 <= j < i then BatchSample(x, y, draws, j) else old(samples[j])
      {
        samples[i] := Sample(x as real + draws[4 * i], y as real + draws[4 * i + 1], draws[4 * i + 2], draws[4 * i + 3]);
        i := i + 1;
      }
      x := x + 1;
      if x > window.xMax {
        x := window.xMin;
        y := y + 1;
      }
      return spp;
    }

    /** `get_subsampler(h_tiles, v_tiles, i, j)`: a sampler of the same kind and `spp` over the
        tile's window, which is a parameter here. */
    method GetSubsampler(tile: Window) returns (s: PixelSampler)
      ensures fresh(s)
      ensures s.kind == kind && s.spp == spp && s.window == tile
      ensures s.x == tile.xMin && s.y == tile.yMin
    {
      if kind == SamplerKind.Stratified {
        s := new PixelSampler.Stratified(tile.xMin, tile.xMax, tile.yMin, tile.yMax, spp);
      } else {
        s := new PixelSampler.Random(tile.xMin, tile.xMax, tile.yMin, tile.yMax, spp);
      }
    }
  }

  /** The batch loop of a render tile: batches are requested until one comes back empty. Over a
      non-empty window, from a fresh sampler with `spp >= 1`, exactly one batch per pixel is
      handed out. */
  method CountBatches(s: PixelSampler, samples: array<Sample>, draws: seq<real>) returns (count: int)
    requires s.spp >= 1 && samples.Length >= s.spp && |draws| >= 4 * s.spp
    requires s.window.xMin <= s.window.xMax && s.window.yMin <= s.window.yMax
    requires s.x == s.window.xMin && s.y == s.window.yMin
    modifies s, samples
    ensures count == (s.window.xMax - s.window.xMin + 1) * (s.window.yMax - s.window.yMin + 1)
  {
    AllPixelsVisited(s.window);
    count := 0;
    var n := s.GetSampleBatch(samples, draws);
    while n > 0
      invariant s.window.xMin <= s.x <= s.window.xMax
      invariant n <= 0 ==> s.y > s.window.yMax
      invariant count + (if n > 0 then 1 else 0) + BatchesFrom(s.window, s.x, s.y)
             == BatchesFrom(s.window, s.window.xMin, s.window.yMin)
      decreases BatchesFrom(s.window, s.x, s.y) + (if n > 0 then 1 else 0)
    {
      count := count + 1;
      n := s.GetSampleBatch(samples, draws);
    }
  }
}

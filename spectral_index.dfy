/** Normalized-difference indices (ndvi_calc, ndwi_calc), their export and the reported mean. */
module SpectralIndex {
  import opened Wrappers
  import opened Raster
  import opened Statistics

  /**
    * (b - a) / (b + a) in exact arithmetic, both samples widened first.
    * A zero denominator gives None, the NaN marker, not an error.
    */
  function NormalizedDifference(b: Sample, a: Sample): (v: Option<real>)
    ensures v.None? <==> a == 0 && b == 0
    ensures v.Some? ==> v.value * (b + a) as real == (b - a) as real
  {
    if b + a == 0 then None else Some((b - a) as real / (b + a) as real)
  }

  function Negate(v: Option<real>): Option<real> {
    match v
    case None => None
    case Some(x) => Some(-x)
  }

  /** Every defined index value lies in [-1, 1]. */
  lemma NormalizedDifferenceRange(b: Sample, a: Sample)
    ensures NormalizedDifference(b, a).Some? ==> -1.0 <= NormalizedDifference(b, a).value <= 1.0
  {
    if b + a != 0 {
      var n, d := (b - a) as real, (b + a) as real;
      assert -1.0 * d <= n <= 1.0 * d;
      DivisionBounds(n, d, -1.0, 1.0);
    }
  }

  /** Swapping the two bands negates the index; the NaN marker stays NaN. */
  lemma NormalizedDifferenceAntisymmetric(b: Sample, a: Sample)
    ensures NormalizedDifference(a, b) == Negate(NormalizedDifference(b, a))
  {
    if a + b != 0 {
      var d := (a + b) as real;
      assert (a - b) as real / d == -((b - a) as real / d);
    }
  }

  /** Two grids of identical shape. */
  predicate SameShape<P, Q>(g: Grid<P>, h: Grid<Q>) {
    |g| == |h| && forall r :: 0 <= r < |g| ==> |g[r]| == |h[r]|
  }

  /** The elementwise normalized difference of two equally shaped grids. */
  function GridDifference(nir: Grid<Sample>, x: Grid<Sample>): (g: Grid<Option<real>>)
    requires SameShape(nir, x)
    ensures SameShape(g, nir)
    ensures forall r, c :: 0 <= r < |g| && 0 <= c < |g[r]| ==>
      g[r][c] == NormalizedDifference(nir[r][c], x[r][c])
  {
    seq(|nir|, r requires 0 <= r < |nir| =>
      seq(|nir[r]|, c requires 0 <= c < |nir[r]| => NormalizedDifference(nir[r][c], x[r][c])))
  }

  function NegateGrid(g: Grid<Option<real>>): (n: Grid<Option<real>>)
    ensures SameShape(n, g)
    ensures forall r, c :: 0 <= r < |n| && 0 <= c < |n[r]| ==> n[r][c] == Negate(g[r][c])
  {
    seq(|g|, r requires 0 <= r < |g| => seq(|g[r]|, c requires 0 <= c < |g[r]| => Negate(g[r][c])))
  }

  /** Exchanging the bands negates the whole product. */
  lemma GridDifferenceAntisymmetric(nir: Grid<Sample>, x: Grid<Sample>)
    requires SameShape(nir, x)
    ensures GridDifference(x, nir) == NegateGrid(GridDifference(nir, x))
  {
    var p, q := GridDifference(x, nir), NegateGrid(GridDifference(nir, x));
    forall r | 0 <= r < |p|
      ensures p[r] == q[r]
    {
      forall c | 0 <= c < |p[r]|
        ensures p[r][c] == q[r][c]
      {
        NormalizedDifferenceAntisymmetric(nir[r][c], x[r][c]);
      }
    }
  }

  /** Every defined pixel of a product lies in [-1, 1]. */
  lemma GridDifferenceRange(nir: Grid<Sample>, x: Grid<Sample>)
    requires SameShape(nir, x)
    ensures forall r, c :: 0 <= r < |nir| && 0 <= c < |nir[r]| && GridDifference(nir, x)[r][c].Some? ==>
      -1.0 <= GridDifference(nir, x)[r][c].value <= 1.0
  {
    var g: Grid<Option<real>> := GridDifference(nir, x);
    forall r, c | 0 <= r < |nir| && 0 <= c < |nir[r]| && g[r][c].Some?
      ensures -1.0 <= g[r][c].value <= 1.0
    {
      NormalizedDifferenceRange(nir[r][c], x[r][c]);
    }
  }

  /**
    * ndvi_calc: red is band B04 (list position 3), nir is B08 (position 7).
    * One layer, of the bands' shape, each pixel the normalized difference
    * of NIR against red, NaN exactly where both samples are zero.
    */
  function NdviCalc(red: Band, nir: Band): (p: seq<Grid<Option<real>>>)
    requires SameShape(red.pixels, nir.pixels)
    ensures |p| == 1 && SameShape(p[0], nir.pixels)
    ensures forall r, c :: 0 <= r < |nir.pixels| && 0 <= c < |nir.pixels[r]| ==>
      p[0][r][c] == NormalizedDifference(nir.pixels[r][c], red.pixels[r][c]) &&
      (p[0][r][c].None? <==> nir.pixels[r][c] == 0 && red.pixels[r][c] == 0)
  {
    [GridDifference(Read(nir)[0], Read(red)[0])]
  }

  /**
    * ndwi_calc: green is band B03 (list position 2), nir is B08; the same
    * formula with green in place of red.
    */
  function NdwiCalc(green: Band, nir: Band): (p: seq<Grid<Option<real>>>)
    requires SameShape(green.pixels, nir.pixels)
    ensures |p| == 1 && SameShape(p[0], nir.pixels)
    ensures forall r, c :: 0 <= r < |nir.pixels| && 0 <= c < |nir.pixels[r]| ==>
      p[0][r][c] == NormalizedDifference(nir.pixels[r][c], green.pixels[r][c]) &&
      (p[0][r][c].None? <==> nir.pixels[r][c] == 0 && green.pixels[r][c] == 0)
  {
    [GridDifference(Read(nir)[0], Read(green)[0])]
  }

  /** The reported NDVI mean, when defined, lies in [-1, 1]. */
  lemma NdviMeanWithin(red: Band, nir: Band)
    requires SameShape(red.pixels, nir.pixels)
    ensures NanMean(NdviCalc(red, nir)[0]).Some? ==> -1.0 <= NanMean(NdviCalc(red, nir)[0]).value <= 1.0
  {
    GridDifferenceRange(nir.pixels, red.pixels);
    MeanWithin(NdviCalc(red, nir)[0], -1.0, 1.0);
  }

  /** The reported NDVI mean is NaN exactly when red and NIR are both zero at every pixel. */
  lemma NdviMeanUndefinedIff(red: Band, nir: Band)
    requires SameShape(red.pixels, nir.pixels)
    ensures NanMean(NdviCalc(red, nir)[0]).None? <==>
      forall r, c :: 0 <= r < |nir.pixels| && 0 <= c < |nir.pixels[r]| ==>
        nir.pixels[r][c] == 0 && red.pixels[r][c] == 0
  {
  }

  /** Constant bands a (red) and b (NIR), not both zero: every pixel and the mean are (b - a) / (b + a). */
  lemma UniformBands(red: Band, nir: Band, a: Sample, b: Sample)
    requires SameShape(red.pixels, nir.pixels) && |nir.pixels| > 0 && |nir.pixels[0]| > 0
    requires forall r, c :: 0 <= r < |red.pixels| && 0 <= c < |red.pixels[r]| ==> red.pixels[r][c] == a
    requires forall r, c :: 0 <= r < |nir.pixels| && 0 <= c < |nir.pixels[r]| ==> nir.pixels[r][c] == b
    requires a + b != 0
    ensures forall r, c :: 0 <= r < |nir.pixels| && 0 <= c < |nir.pixels[r]| ==>
      NdviCalc(red, nir)[0][r][c] == Some((b - a) as real / (b + a) as real)
    ensures NanMean(NdviCalc(red, nir)[0]) == Some((b - a) as real / (b + a) as real)
  {
    var g: Grid<Option<real>> := NdviCalc(red, nir)[0];
    assert g[0][0].Some?;
    MeanUniform(g, (b - a) as real / (b + a) as real);
  }

  /** Two well-formed bands with one footprint have grids of the same shape, as the index functions require. */
  lemma ConsistentBandsSameShape(x: Band, y: Band, fp: Footprint)
    requires OneFootprint([x, y], fp)
    ensures SameShape(x.pixels, y.pixels)
  {
    assert WellFormed([x, y][0]) && WellFormed([x, y][1]);
  }

  // ---- The denominator as the source computes it ----

  /** A float64 quotient: finite, NaN (0/0) or an infinity (x/0, x != 0). */
  datatype Quotient = Finite(v: real) | NaN | Infinite(negative: bool)

  /** uint16 + uint16 in NumPy: the sum modulo 2^16. */
  function WrappedSum(b: Sample, a: Sample): (s: Sample)
    ensures s == b + a || s == b + a - 0x1_0000
  {
    (b + a) % 0x1_0000
  }

  /** One pixel as written: the numerator widened to float, the denominator added in uint16. */
  function PixelAsWritten(b: Sample, a: Sample): (q: Quotient)
    ensures q.Finite? <==> WrappedSum(b, a) != 0
    ensures q.Finite? ==> q.v * WrappedSum(b, a) as real == (b - a) as real
    ensures q.NaN? <==> WrappedSum(b, a) == 0 && b == a
    ensures q.Infinite? ==> q.negative == (b < a)
  {
    var num := b - a;
    var den := WrappedSum(b, a);
    if den != 0 then Finite(num as real / den as real)
    else if num == 0 then NaN
    else Infinite(num < 0)
  }

  function AsQuotient(v: Option<real>): Quotient {
    match v
    case None => NaN
    case Some(x) => Finite(x)
  }

  /** While b + a stays below 2^16 the code as written and the widened formula agree. */
  lemma AsWrittenAgreesWithoutWrap(b: Sample, a: Sample)
    requires b + a < 0x1_0000
    ensures PixelAsWritten(b, a) == AsQuotient(NormalizedDifference(b, a))
  {
  }

  /** NIR 40000 and red 30000: the sum wraps to 4464, giving 10000/4464 > 1 instead of 1/7. */
  lemma AsWrittenLeavesRange()
    ensures PixelAsWritten(40000, 30000) == Finite(10000.0 / 4464.0)
    ensures 10000.0 / 4464.0 > 1.0
    ensures NormalizedDifference(40000, 30000) == Some(1.0 / 7.0)
  {
    assert WrappedSum(40000, 30000) == 4464;
  }

  /** NIR 40000 and red 25536: the sum wraps to 0, giving +infinity instead of 14464/65536. */
  lemma AsWrittenDividesByZero()
    ensures PixelAsWritten(40000, 25536) == Infinite(false)
    ensures NormalizedDifference(40000, 25536) == Some(14464.0 / 65536.0)
  {
    assert WrappedSum(40000, 25536) == 0;
  }

  /** ndvi_calc as written, pixel by pixel. */
  function GridAsWritten(nir: Grid<Sample>, x: Grid<Sample>): (g: Grid<Quotient>)
    requires SameShape(nir, x)
    ensures SameShape(g, nir)
    ensures forall r, c :: 0 <= r < |g| && 0 <= c < |g[r]| ==> g[r][c] == PixelAsWritten(nir[r][c], x[r][c])
  {
    seq(|nir|, r requires 0 <= r < |nir| =>
      seq(|nir[r]|, c requires 0 <= c < |nir[r]| => PixelAsWritten(nir[r][c], x[r][c])))
  }

  /** On a scene where no pixel's sum reaches 2^16, the code as written computes the widened product. */
  lemma GridAsWrittenAgreesWithoutWrap(nir: Grid<Sample>, x: Grid<Sample>)
    requires SameShape(nir, x)
    requires forall r, c :: 0 <= r < |nir| && 0 <= c < |nir[r]| ==> nir[r][c] as int + x[r][c] as int < 0x1_0000
    ensures forall r, c :: 0 <= r < |nir| && 0 <= c < |nir[r]| ==>
      GridAsWritten(nir, x)[r][c] == AsQuotient(GridDifference(nir, x)[r][c])
  {
    forall r, c | 0 <= r < |nir| && 0 <= c < |nir[r]|
      ensures GridAsWritten(nir, x)[r][c] == AsQuotient(GridDifference(nir, x)[r][c])
    {
      AsWrittenAgreesWithoutWrap(nir[r][c], x[r][c]);
    }
  }

  // ---- Export and the per-product drivers ----

  /**
    * export_normalized_diff: opens a one-band float64 raster with the
    * footprint of `reference`, writes the whole stack and closes it; the
    * file is closed even when the write raises.
    */
  method ExportNormalizedDiff(data: seq<Grid<Option<real>>>, reference: Band)
    returns (out: OutputRaster?<Option<real>>, status: Outcome<Error>)
    ensures out == null <==> !Creatable(Profile(reference.footprint, 1, Float64))
    ensures out == null ==> status == Fail(InvalidMetadata)
    ensures out != null ==>
      fresh(out) && out.Valid() && out.closed &&
      out.profile == Profile(reference.footprint, 1, Float64)
    ensures status.Pass? <==> out != null && |data| == 1 && Fits(data[0], reference.footprint)
    ensures status.Pass? ==> out.Contents() == [Some(data[0])]
    ensures out != null && status.Fail? ==> status == Fail(ShapeMismatch)
    ensures out != null && status.Fail? ==> out.Contents() == [None]
  {
    out, status := Create<Option<real>>(Profile(reference.footprint, 1, Float64));
    if out == null {
      return;
    }
    assert out.Contents() == [None];
    status := out.WriteAll(data);
    out.Close();
  }

  /** What ndvi() prints: the mean, or nothing when the export raised first. */
  datatype Report = Printed(mean: Option<real>) | NotPrinted

  /** ndvi(): computes NDVI, exports it with red's footprint and reports the mean over layer 0. */
  method Ndvi(red: Band, nir: Band)
    returns (out: OutputRaster?<Option<real>>, status: Outcome<Error>, report: Report)
    requires SameShape(red.pixels, nir.pixels)
    ensures out != null ==> fresh(out) && out.closed && out.profile == Profile(red.footprint, 1, Float64)
    ensures status.Pass? <==> Creatable(Profile(red.footprint, 1, Float64)) && Fits(nir.pixels, red.footprint)
    ensures status.Pass? ==> out != null && out.Contents() == [Some(NdviCalc(red, nir)[0])]
    ensures OneFootprint([red, nir], red.footprint) ==> status.Pass?
    ensures report == if status.Pass? then Printed(NanMean(NdviCalc(red, nir)[0])) else NotPrinted
  {
    var product := NdviCalc(red, nir);
    out, status := ExportNormalizedDiff(product, red);
    report := if status.Pass? then Printed(NanMean(product[0])) else NotPrinted;
    if OneFootprint([red, nir], red.footprint) {
      assert WellFormed([red, nir][1]) && [red, nir][1].footprint == red.footprint;
    }
  }

  /** ndwi(): computes NDWI and exports it; the footprint is red's (B04), since the export always uses it. */
  method Ndwi(green: Band, nir: Band, red: Band)
    returns (out: OutputRaster?<Option<real>>, status: Outcome<Error>)
    requires SameShape(green.pixels, nir.pixels)
    ensures out != null ==> fresh(out) && out.closed && out.profile == Profile(red.footprint, 1, Float64)
    ensures status.Pass? <==> Creatable(Profile(red.footprint, 1, Float64)) && Fits(nir.pixels, red.footprint)
    ensures OneFootprint([green, nir, red], red.footprint) ==> status.Pass?
    ensures status.Pass? ==> out != null && out.Contents() == [Some(NdwiCalc(green, nir)[0])]
  {
    var product := NdwiCalc(green, nir);
    out, status := ExportNormalizedDiff(product, red);
    if OneFootprint([green, nir, red], red.footprint) {
      assert WellFormed([green, nir, red][1]) && [green, nir, red][1].footprint == red.footprint;
    }
  }
}

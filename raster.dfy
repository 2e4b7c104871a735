/** Bands as read from a scene, and the georeferenced raster writer. */
module Raster {
  import opened Wrappers

  /** Pixel data types a raster file can declare. */
  datatype DType = UInt8 | UInt16 | Int16 | UInt32 | Int32 | Float32 | Float64

  /** The affine pixel-to-world transform (x = a*col + b*row + c, y = d*col + e*row + f). */
  datatype Affine = Affine(a: real, b: real, c: real, d: real, e: real, f: real)

  /** The spatial footprint of a raster: what every output copies from its reference band. */
  datatype Footprint = Footprint(height: nat, width: nat, crs: string, transform: Affine)

  /** A 2-D pixel grid, row-major: |g| rows of equal width. */
  type Grid<P> = seq<seq<P>>

  /** One 16-bit unsigned sample, the pixel type of the scene's band files. */
  type Sample = x: int | 0 <= x < 0x1_0000

  /** An opened single-band file: its footprint, its declared pixel type and its pixels. */
  datatype Band = Band(footprint: Footprint, dtype: DType, pixels: Grid<Sample>)

  /** The creation profile of an output raster. */
  datatype Profile = Profile(footprint: Footprint, count: nat, dtype: DType)

  /** The failures an operation of the core can raise. */
  datatype Error =
    | IndexError           // a position past the end of a Python list
    | InvalidMetadata      // band count below 1, or zero height or width
    | BandIndexOutOfRange  // a band index outside 1..count
    | ShapeMismatch        // a grid whose shape differs from the declared height and width
    | DatasetClosed        // a write after close

  /** `read()` of a single-band file: a stack of one layer, the band's pixels. */
  function Read(b: Band): (layers: seq<Grid<Sample>>)
    ensures |layers| == 1 && layers[0] == b.pixels
  {
    [b.pixels]
  }

  predicate HasShape<P>(g: Grid<P>, height: nat, width: nat) {
    |g| == height && forall r :: 0 <= r < |g| ==> |g[r]| == width
  }

  /** A grid that fills the footprint exactly. */
  predicate Fits<P>(g: Grid<P>, fp: Footprint) {
    HasShape(g, fp.height, fp.width)
  }

  /** A band as reading a file yields it: its pixels fill its own footprint. */
  predicate WellFormed(b: Band) {
    Fits(b.pixels, b.footprint)
  }

  /** Bands of one acquisition: each well-formed, all sharing one non-empty footprint fp. */
  predicate OneFootprint(bands: seq<Band>, fp: Footprint) {
    fp.height > 0 && fp.width > 0 &&
    forall k :: 0 <= k < |bands| ==> WellFormed(bands[k]) && bands[k].footprint == fp
  }

  /** What the writer demands before it creates a file. */
  predicate Creatable(p: Profile) {
    p.count >= 1 && p.footprint.height > 0 && p.footprint.width > 0
  }

  /**
    * An output raster opened for writing: a fixed number of bands, each
    * unwritten (None) or holding one grid. `log` records the band index of
    * every successful write, in call order.
    */
  class OutputRaster<P> {
    const profile: Profile
    const data: array<Option<Grid<P>>>
    var closed: bool
    ghost var log: seq<nat>

    ghost predicate Valid()
      reads this
    {
      data.Length == profile.count
    }

    /** Band i (1-based) of the file is Contents()[i - 1]. */
    ghost function Contents(): seq<Option<Grid<P>>>
      reads this, data
    {
      data[..]
    }

    constructor (p: Profile)
      requires Creatable(p)
      ensures Valid() && fresh(data)
      ensures profile == p && !closed && log == []
      ensures Contents() == seq(p.count, _ => None)
    {
      profile := p;
      data := new Option<Grid<P>>[p.count](_ => None);
      closed := false;
      log := [];
    }

    /** Writes grid g as band i. */
    method WriteBand(i: int, g: Grid<P>) returns (status: Outcome<Error>)
      requires Valid()
      modifies data, this`log
      ensures Valid()
      ensures closed ==> status == Fail(DatasetClosed)
      ensures !closed && !(1 <= i <= profile.count) ==> status == Fail(BandIndexOutOfRange)
      ensures !closed && 1 <= i <= profile.count && !Fits(g, profile.footprint) ==> status == Fail(ShapeMismatch)
      ensures status.Pass? <==> !closed && 1 <= i <= profile.count && Fits(g, profile.footprint)
      ensures status.Pass? ==> Contents() == old(Contents())[i - 1 := Some(g)] && log == old(log) + [i]
      ensures status.Fail? ==> Contents() == old(Contents()) && log == old(log)
    {
      if closed {
        status := Fail(DatasetClosed);
      } else if !(1 <= i <= profile.count) {
        status := Fail(BandIndexOutOfRange);
      } else if !Fits(g, profile.footprint) {
        status := Fail(ShapeMismatch);
      } else {
        data[i - 1] := Some(g);
        log := log + [i];
        status := Pass;
      }
    }

    /** Writes a whole stack, layer k as band k + 1; all or nothing. */
    method WriteAll(layers: seq<Grid<P>>) returns (status: Outcome<Error>)
      requires Valid()
      modifies data, this`log
      ensures Valid()
      ensures closed ==> status == Fail(DatasetClosed)
      ensures !closed && |layers| != profile.count ==> status == Fail(ShapeMismatch)
      ensures status.Pass? <==>
        !closed && |layers| == profile.count &&
        forall k :: 0 <= k < |layers| ==> Fits(layers[k], profile.footprint)
      ensures !closed && status.Fail? ==> status == Fail(ShapeMismatch)
      ensures status.Pass? ==>
        |Contents()| == |layers| &&
        (forall k :: 0 <= k < |layers| ==> Contents()[k] == Some(layers[k])) &&
        log == old(log) + Ascending(|layers|)
      ensures status.Fail? ==> Contents() == old(Contents()) && log == old(log)
    {
      if closed {
        return Fail(DatasetClosed);
      }
      if |layers| != profile.count || exists k :: 0 <= k < |layers| && !Fits(layers[k], profile.footprint) {
        return Fail(ShapeMismatch);
      }
      var k := 0;
      while k < |layers|
        invariant 0 <= k <= |layers|
        invariant forall j :: 0 <= j < k ==> data[j] == Some(layers[j])
        invariant log == old(log) + Ascending(k)
      {
        status := WriteBand(k + 1, layers[k]);
        AscendingSnoc(k);
        k := k + 1;
      }
      status := Pass;
    }

    /** Finalizes the file; closing a closed file does nothing. */
    method Close()
      requires Valid()
      modifies this`closed
      ensures Valid() && closed
    {
      closed := true;
    }
  }

  /** The band indices 1, 2, ..., n. */
  function Ascending(n: nat): (s: seq<nat>)
  {
    if n == 0 then [] else Ascending(n - 1) + [n]
  }

  lemma AscendingSnoc(n: nat)
    ensures Ascending(n + 1) == Ascending(n) + [n + 1]
  {
  }

  /** Opens a file for writing with profile p, or raises InvalidMetadata. */
  method Create<P>(p: Profile) returns (out: OutputRaster?<P>, status: Outcome<Error>)
    ensures out == null <==> !Creatable(p)
    ensures out == null ==> status == Fail(InvalidMetadata)
    ensures out != null ==>
      status == Pass && fresh(out) && fresh(out.data) && out.Valid() &&
      out.profile == p && !out.closed && out.log == [] &&
      out.Contents() == seq(p.count, _ => None)
  {
    if !Creatable(p) {
      return null, Fail(InvalidMetadata);
    }
    out := new OutputRaster<P>(p);
    status := Pass;
  }
}

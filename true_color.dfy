/** Band selection and the true-colour composite write (band_process, band_write, rgb). */
module TrueColor {
  import opened Wrappers
  import opened Raster

  /** Number of bands written to the composite. */
  const BandCount: nat := 3

  /** The list positions band_process selects, in order. */
  const Repeat: seq<nat> := [1, 2, 3]

  /**
    * band_process: for each position in Repeat, in order, appends the band
    * listed there; a position past the end of the list raises IndexError.
    * scene[x] is the band that the x-th listed file opens to.
    */
  method BandProcess(scene: seq<Band>) returns (r: Result<seq<Band>, Error>)
    ensures r.Success? <==> |scene| >= 4
    ensures r.Failure? ==> r.error == IndexError
    ensures r.Success? ==>
      |r.value| == |Repeat| && forall k :: 0 <= k < |Repeat| ==> r.value[k] == scene[Repeat[k]]
    ensures r.Success? ==> r.value == scene[1..4]
  {
    var bands: seq<Band> := [];
    var i := 0;
    while i < |Repeat|
      invariant 0 <= i <= |Repeat|
      invariant |bands| == i
      invariant forall k :: 0 <= k < i ==> Repeat[k] < |scene| && bands[k] == scene[Repeat[k]]
    {
      var x := Repeat[i];
      if x >= |scene| {
        return Failure(IndexError);
      }
      bands := bands + [scene[x]];
      i := i + 1;
    }
    assert Repeat[2] < |scene|;
    return Success(bands);
  }

  /** The profile of the composite: footprint and pixel type of the first band, BandCount bands. */
  function CompositeProfile(first: Band): Profile {
    Profile(first.footprint, BandCount, first.dtype)
  }

  /** The successive values of a counter that starts at `start` and is decremented after each of n steps. */
  function Descending(start: int, n: nat): seq<int>
    decreases n
  {
    if n == 0 then [] else [start] + Descending(start - 1, n - 1)
  }

  lemma {:induction false} DescendingAt(start: int, n: nat, k: nat)
    requires k < n
    ensures |Descending(start, n)| == n && Descending(start, n)[k] == start - k
    decreases n
  {
    if k > 0 {
      DescendingAt(start - 1, n - 1, k - 1);
    } else {
      DescendingLength(start, n);
    }
  }

  lemma {:induction false} DescendingLength(start: int, n: nat)
    ensures |Descending(start, n)| == n
    decreases n
  {
    if n > 0 {
      DescendingLength(start - 1, n - 1);
    }
  }

  lemma {:induction false} DescendingSnoc(start: int, n: nat)
    ensures Descending(start, n + 1) == Descending(start, n) + [start - n]
    decreases n
  {
    if n > 0 {
      DescendingSnoc(start - 1, n - 1);
    }
  }

  /** The values of Descending(start, n) lie in start - n + 1 .. start. */
  lemma {:induction false} DescendingBounds(start: int, n: nat)
    ensures forall x :: x in Descending(start, n) ==> start - n < x <= start
    decreases n
  {
    if n > 0 {
      DescendingBounds(start - 1, n - 1);
    }
  }

  /**
    * With as many bands as BandCount, the counter visits every band index
    * 1..c exactly once and no other value.
    */
  lemma {:induction false} DescendingCoversOnce(c: nat)
    ensures forall j :: 1 <= j <= c ==> multiset(Descending(c, c))[j] == 1
    ensures forall x :: x in Descending(c, c) ==> 1 <= x <= c
  {
    DescendingBounds(c, c);
    if c > 0 {
      DescendingCoversOnce(c - 1);
      DescendingBounds(c - 1, c - 1);
      assert c !in Descending(c - 1, c - 1);
      assert Descending(c, c) == [c] + Descending(c - 1, c - 1);
    }
  }

  /** A counter decremented from c past c steps reaches 0, which is no band index. */
  lemma CounterLeavesRange(c: nat, n: nat)
    requires n > c
    ensures |Descending(c, n)| == n && Descending(c, n)[c] == 0
  {
    DescendingAt(c, n, c);
  }

  function Reverse<T>(s: seq<T>): seq<T> {
    if s == [] then [] else Reverse(s[1..]) + [s[0]]
  }

  lemma {:induction false} ReverseAt<T>(s: seq<T>, k: nat)
    requires k < |s|
    ensures |Reverse(s)| == |s| && Reverse(s)[k] == s[|s| - 1 - k]
  {
    ReverseLength(s);
    if k < |s| - 1 {
      ReverseAt(s[1..], k);
    }
  }

  lemma {:induction false} ReverseLength<T>(s: seq<T>)
    ensures |Reverse(s)| == |s|
  {
    if s != [] {
      ReverseLength(s[1..]);
    }
  }

  function Pixels(bands: seq<Band>): (g: seq<Option<Grid<Sample>>>)
    ensures |g| == |bands|
  {
    seq(|bands|, k requires 0 <= k < |bands| => Some(bands[k].pixels))
  }

  /**
    * The composite after writing `bands` in order: the bands not yet
    * reached stay unwritten, followed by the selection in reverse.
    */
  function Placement(bands: seq<Band>): seq<Option<Grid<Sample>>>
    requires |bands| <= BandCount
  {
    seq(BandCount - |bands|, _ => None) + Reverse(Pixels(bands))
  }

  /** The k-th selected band (0-based) lands in output band BandCount - k; the lower bands stay unwritten. */
  lemma PlacementAt(bands: seq<Band>, j: nat)
    requires |bands| <= BandCount && j < BandCount
    ensures |Placement(bands)| == BandCount
    ensures j < BandCount - |bands| ==> Placement(bands)[j] == None
    ensures j >= BandCount - |bands| ==> Placement(bands)[j] == Some(bands[BandCount - 1 - j].pixels)
  {
    ReverseLength(Pixels(bands));
    if j >= BandCount - |bands| {
      ReverseAt(Pixels(bands), j - (BandCount - |bands|));
    }
  }

  /** With exactly BandCount bands the composite is the selection reversed. */
  lemma PlacementFull(bands: seq<Band>)
    requires |bands| == BandCount
    ensures Placement(bands) == Reverse(Pixels(bands))
  {
  }

  /** The grids a failed write left behind satisfy the same layout as Placement. */
  lemma PlacementFromIndexes(bands: seq<Band>, s: seq<Option<Grid<Sample>>>)
    requires |bands| <= BandCount && |s| == BandCount
    requires forall j :: 0 <= j < BandCount - |bands| ==> s[j] == None
    requires forall k :: 0 <= k < |bands| ==> s[BandCount - 1 - k] == Some(bands[k].pixels)
    ensures s == Placement(bands)
  {
    PlacementAt(bands, 0);
    forall j | 0 <= j < BandCount
      ensures s[j] == Placement(bands)[j]
    {
      PlacementAt(bands, j);
      if j >= BandCount - |bands| {
        assert s[BandCount - 1 - (BandCount - 1 - j)] == Some(bands[BandCount - 1 - j].pixels);
      }
    }
    PlacementAt(bands, 0);
  }

  /**
    * band_write: creates the composite with the first band's profile and
    * BandCount bands, then writes the bands in order under a counter that
    * starts at BandCount and is decremented after each write, then closes.
    * A raised error leaves the file open with the writes done so far.
    */
  method BandWrite(bands: seq<Band>) returns (out: OutputRaster?<Sample>, status: Outcome<Error>)
    ensures |bands| == 0 ==> out == null && status == Fail(IndexError)
    ensures |bands| > 0 ==> (out == null <==> !Creatable(CompositeProfile(bands[0])))
    ensures |bands| > 0 && out == null ==> status == Fail(InvalidMetadata)
    ensures out != null ==>
      fresh(out) && fresh(out.data) && out.Valid() &&
      out.profile.footprint == bands[0].footprint &&
      out.profile.count == BandCount && out.profile.dtype == bands[0].dtype
    ensures out != null ==>
      |out.log| <= |bands| && |out.log| <= BandCount &&
      out.log == Descending(BandCount, |out.log|) &&
      (forall k :: 0 <= k < |out.log| ==> Fits(bands[k].pixels, bands[0].footprint)) &&
      out.Contents() == Placement(bands[..|out.log|]) &&
      (out.closed <==> status.Pass?)
    ensures status.Pass? <==>
      out != null && |bands| <= BandCount &&
      forall k :: 0 <= k < |bands| ==> Fits(bands[k].pixels, bands[0].footprint)
    ensures status.Pass? ==> |out.log| == |bands| && out.Contents() == Placement(bands)
    ensures out != null && status.Fail? ==>
      |out.log| < |bands| &&
      (|out.log| == BandCount ==> status == Fail(BandIndexOutOfRange)) &&
      (|out.log| < BandCount ==>
        status == Fail(ShapeMismatch) && !Fits(bands[|out.log|].pixels, bands[0].footprint))
  {
    if |bands| == 0 {
      return null, Fail(IndexError);
    }
    var fp := bands[0].footprint;
    out, status := Create<Sample>(CompositeProfile(bands[0]));
    if out == null {
      return;
    }
    var desc: int := BandCount;
    var k := 0;
    while k < |bands|
      invariant 0 <= k <= |bands| && k <= BandCount
      invariant desc == BandCount - k
      invariant out.Valid() && !out.closed && out.profile == CompositeProfile(bands[0])
      invariant out.log == Descending(BandCount, k)
      invariant forall j :: 0 <= j < k ==> Fits(bands[j].pixels, fp)
      invariant forall j :: 0 <= j < BandCount - k ==> out.data[j] == None
      invariant forall j :: 0 <= j < k ==> out.data[BandCount - 1 - j] == Some(bands[j].pixels)
    {
      status := out.WriteBand(desc, bands[k].pixels);
      if status.Fail? {
        PlacementFromIndexes(bands[..k], out.data[..]);
        assert 0 <= k < |bands|;
        return;
      }
      DescendingSnoc(BandCount, k);
      desc := desc - 1;
      k := k + 1;
    }
    PlacementFromIndexes(bands[..k], out.data[..]);
    assert bands[..k] == bands;
    out.Close();
    status := Pass;
  }

  /** A scene of well-formed bands sharing one footprint meets every condition the composite write checks. */
  lemma ConsistentSceneComposes(scene: seq<Band>, fp: Footprint)
    requires |scene| >= 4 && OneFootprint(scene, fp)
    ensures Creatable(CompositeProfile(scene[1])) && CompositeProfile(scene[1]).footprint == fp
    ensures forall x :: 1 <= x <= 3 ==> Fits(scene[x].pixels, scene[1].footprint)
  {
    assert scene[1].footprint == fp;
    forall x | 1 <= x <= 3
      ensures Fits(scene[x].pixels, scene[1].footprint)
    {
      assert WellFormed(scene[x]) && scene[x].footprint == fp;
    }
  }

  /**
    * rgb: selects positions 1, 2, 3 of the scene and writes them reversed,
    * so output band 1 is scene[3], band 2 is scene[2] and band 3 is scene[1].
    */
  method Rgb(scene: seq<Band>) returns (out: OutputRaster?<Sample>, status: Outcome<Error>)
    ensures |scene| < 4 ==> out == null && status == Fail(IndexError)
    ensures out != null ==>
      fresh(out) && out.Valid() &&
      out.profile.footprint == scene[1].footprint && out.profile.count == BandCount
    ensures status.Pass? <==>
      |scene| >= 4 && Creatable(CompositeProfile(scene[1])) &&
      forall x :: 1 <= x <= 3 ==> Fits(scene[x].pixels, scene[1].footprint)
    ensures |scene| >= 4 && OneFootprint(scene, scene[1].footprint) ==> status.Pass?
    ensures status.Pass? ==>
      out != null && out.closed && out.log == [3, 2, 1] &&
      out.Contents() == [Some(scene[3].pixels), Some(scene[2].pixels), Some(scene[1].pixels)]
  {
    var selected := BandProcess(scene);
    if selected.Failure? {
      return null, Fail(selected.error);
    }
    out, status := BandWrite(selected.value);
    if status.Pass? {
      PlacementAt(selected.value, 0);
      PlacementAt(selected.value, 1);
      PlacementAt(selected.value, 2);
      assert out.log == Descending(3, 3);
    }
    assert forall k :: 0 <= k < 3 ==> selected.value[k] == scene[k + 1];
  }
}

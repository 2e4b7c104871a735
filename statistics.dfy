/** The mean over defined pixels (NumPy's nanmean over one layer). */
module Statistics {
  import opened Wrappers
  import opened Raster

  /** The defined values of one row, left to right. */
  function DefinedRow(row: seq<Option<real>>): seq<real> {
    if row == [] then []
    else (if row[0].Some? then [row[0].value] else []) + DefinedRow(row[1..])
  }

  /** The defined values of a grid, row-major. */
  function Defined(g: Grid<Option<real>>): seq<real> {
    if g == [] then [] else DefinedRow(g[0]) + Defined(g[1..])
  }

  function Sum(s: seq<real>): real {
    if s == [] then 0.0 else s[0] + Sum(s[1..])
  }

  /** The arithmetic mean of the defined pixels; None (NaN) exactly when no pixel is defined. */
  function NanMean(g: Grid<Option<real>>): (m: Option<real>)
    ensures m.None? <==> forall r, c :: 0 <= r < |g| && 0 <= c < |g[r]| ==> g[r][c].None?
  {
    DefinedEmptyIff(g);
    var d := Defined(g);
    if |d| == 0 then None else Some(Sum(d) / |d| as real)
  }

  /** Defined distributes over splitting a row. */
  lemma {:induction false} DefinedRowAppend(r: seq<Option<real>>, s: seq<Option<real>>)
    ensures DefinedRow(r + s) == DefinedRow(r) + DefinedRow(s)
  {
    if r != [] {
      assert (r + s)[0] == r[0];
      assert (r + s)[1..] == r[1..] + s;
      DefinedRowAppend(r[1..], s);
    } else {
      assert r + s == s;
    }
  }

  /** Defined distributes over splitting a grid into row blocks. */
  lemma {:induction false} DefinedAppend(g: Grid<Option<real>>, h: Grid<Option<real>>)
    ensures Defined(g + h) == Defined(g) + Defined(h)
  {
    if g != [] {
      assert (g + h)[0] == g[0];
      assert (g + h)[1..] == g[1..] + h;
      DefinedAppend(g[1..], h);
    } else {
      assert g + h == g + h[..];
      assert g + h == h;
    }
  }

  /**
    * A defined pixel contributes its value once, an undefined pixel nothing,
    * and a one-row grid contributes its row. With the two Append lemmas
    * these fix Defined entirely.
    */
  lemma DefinedCells(v: real, row: seq<Option<real>>)
    ensures DefinedRow([Some(v)]) == [v]
    ensures DefinedRow([None]) == []
    ensures Defined([row]) == DefinedRow(row)
  {
  }

  lemma {:induction false} SumAppend(a: seq<real>, b: seq<real>)
    ensures Sum(a + b) == Sum(a) + Sum(b)
  {
    if a != [] {
      assert (a + b)[0] == a[0];
      assert (a + b)[1..] == a[1..] + b;
      SumAppend(a[1..], b);
    } else {
      assert a + b == b;
    }
  }

  /** No value is defined exactly when every pixel is undefined. */
  lemma DefinedEmptyIff(g: Grid<Option<real>>)
    ensures |Defined(g)| == 0 <==>
      forall r, c :: 0 <= r < |g| && 0 <= c < |g[r]| ==> g[r][c].None?
  {
    if |Defined(g)| > 0 {
      DefinedMembers(g, Defined(g)[0]);
    }
    if !forall r, c :: 0 <= r < |g| && 0 <= c < |g[r]| ==> g[r][c].None? {
      var r, c :| 0 <= r < |g| && 0 <= c < |g[r]| && g[r][c].Some?;
      DefinedMembers(g, g[r][c].value);
    }
  }

  lemma {:induction false} DefinedRowMembers(row: seq<Option<real>>, v: real)
    ensures v in DefinedRow(row) <==> exists c :: 0 <= c < |row| && row[c] == Some(v)
  {
    if row != [] {
      DefinedRowMembers(row[1..], v);
      if exists c :: 0 <= c < |row| - 1 && row[1..][c] == Some(v) {
        var c :| 0 <= c < |row| - 1 && row[1..][c] == Some(v);
        assert row[c + 1] == Some(v);
      }
      if exists c :: 0 <= c < |row| && row[c] == Some(v) {
        var c :| 0 <= c < |row| && row[c] == Some(v);
        if c > 0 {
          assert row[1..][c - 1] == Some(v);
        }
      }
    }
  }

  /** A value is among the defined values exactly when some pixel holds it; undefined pixels contribute nothing. */
  lemma {:induction false} DefinedMembers(g: Grid<Option<real>>, v: real)
    ensures v in Defined(g) <==>
      exists r, c :: 0 <= r < |g| && 0 <= c < |g[r]| && g[r][c] == Some(v)
  {
    if g != [] {
      DefinedRowMembers(g[0], v);
      DefinedMembers(g[1..], v);
      if exists r, c :: 0 <= r < |g| - 1 && 0 <= c < |g[1..][r]| && g[1..][r][c] == Some(v) {
        var r, c :| 0 <= r < |g| - 1 && 0 <= c < |g[1..][r]| && g[1..][r][c] == Some(v);
        assert g[r + 1][c] == Some(v);
      }
      if exists r, c :: 0 <= r < |g| && 0 <= c < |g[r]| && g[r][c] == Some(v) {
        var r, c :| 0 <= r < |g| && 0 <= c < |g[r]| && g[r][c] == Some(v);
        if r > 0 {
          assert g[1..][r - 1][c] == Some(v);
        }
      }
    }
  }

  lemma {:induction false} SumBounds(s: seq<real>, lo: real, hi: real)
    requires forall i :: 0 <= i < |s| ==> lo <= s[i] <= hi
    ensures lo * |s| as real <= Sum(s) <= hi * |s| as real
  {
    if s != [] {
      SumBounds(s[1..], lo, hi);
    }
  }

  lemma {:induction false} SumConstant(s: seq<real>, v: real)
    requires forall i :: 0 <= i < |s| ==> s[i] == v
    ensures Sum(s) == v * |s| as real
  {
    if s != [] {
      SumConstant(s[1..], v);
    }
  }

  lemma DivisionBounds(x: real, n: real, lo: real, hi: real)
    requires n > 0.0 && lo * n <= x <= hi * n
    ensures lo <= x / n <= hi
  {
  }

  /** When every defined pixel lies in lo..hi, so does the mean. */
  lemma MeanWithin(g: Grid<Option<real>>, lo: real, hi: real)
    requires forall r, c :: 0 <= r < |g| && 0 <= c < |g[r]| && g[r][c].Some? ==> lo <= g[r][c].value <= hi
    ensures NanMean(g).Some? ==> lo <= NanMean(g).value <= hi
  {
    var d := Defined(g);
    forall i | 0 <= i < |d|
      ensures lo <= d[i] <= hi
    {
      DefinedMembers(g, d[i]);
    }
    SumBounds(d, lo, hi);
    if |d| > 0 {
      DivisionBounds(Sum(d), |d| as real, lo, hi);
    }
  }

  /** When every defined pixel equals v and one is defined, the mean is v. */
  lemma MeanUniform(g: Grid<Option<real>>, v: real)
    requires exists r, c :: 0 <= r < |g| && 0 <= c < |g[r]| && g[r][c].Some?
    requires forall r, c :: 0 <= r < |g| && 0 <= c < |g[r]| && g[r][c].Some? ==> g[r][c].value == v
    ensures NanMean(g) == Some(v)
  {
    var d := Defined(g);
    forall i | 0 <= i < |d|
      ensures d[i] == v
    {
      DefinedMembers(g, d[i]);
    }
    DefinedEmptyIff(g);
    var n := |d| as real;
    assert n > 0.0;
    SumConstant(d, v);
    assert Sum(d) == v * n;
    DivisionBounds(v * n, n, v, v);
  }
}

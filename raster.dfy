/** The coverage bitmap behind the severity figure: boxes are truncated to
    integer corners, clipped, filled into a boolean grid with half-open
    ranges, and the set cells are counted. Both pipelines share this step;
    they differ only in the grid size and the clipping bounds. */
module Raster {
  import opened Common
  import opened Geometry

  /** Integer corners after `map(int, box)` and clipping; the fill covers
      rows `y1 <= i < y2` and columns `x1 <= j < x2`. */
  datatype Cells = Cells(x1: int, y1: int, x2: int, y2: int)

  predicate InCells(c: Cells, i: int, j: int)
  {
    c.y1 <= i < c.y2 && c.x1 <= j < c.x2
  }

  /** Cell (i, j) is set once the rectangles `cs` have been filled in. */
  predicate CoveredBy(cs: seq<Cells>, i: int, j: int)
  {
    |cs| > 0 && (CoveredBy(cs[..|cs| - 1], i, j) || InCells(cs[|cs| - 1], i, j))
  }

  /** A cell is set exactly when some rectangle contains it. */
  lemma {:induction false} CoveredByAny(cs: seq<Cells>, i: int, j: int)
    ensures CoveredBy(cs, i, j) <==> exists k :: 0 <= k < |cs| && InCells(cs[k], i, j)
  {
    if |cs| > 0 {
      var init := cs[..|cs| - 1];
      CoveredByAny(init, i, j);
      if CoveredBy(init, i, j) {
        var k :| 0 <= k < |init| && InCells(init[k], i, j);
        assert cs[k] == init[k];
      }
      if exists k :: 0 <= k < |cs| && InCells(cs[k], i, j) {
        var k :| 0 <= k < |cs| && InCells(cs[k], i, j);
        if k < |init| {
          assert init[k] == cs[k];
        }
      }
    }
  }

  /** Set cells of row `i` among the first `n` columns (`row.count(True)`). */
  function RowCount(cs: seq<Cells>, i: int, n: nat): (r: nat)
    ensures r <= n
  {
    if n == 0 then 0 else RowCount(cs, i, n - 1) + (if CoveredBy(cs, i, n - 1) then 1 else 0)
  }

  /** Set cells among the first `m` rows of an `n`-column grid. */
  function GridCount(cs: seq<Cells>, m: nat, n: nat): (r: nat)
  {
    if m == 0 then 0 else GridCount(cs, m - 1, n) + RowCount(cs, m - 1, n)
  }

  /** Every rectangle lies inside a `rows` x `cols` grid, so the fill loops
      index the bitmap in range. */
  predicate FitsGrid(cs: seq<Cells>, rows: nat, cols: nat)
  {
    forall k :: 0 <= k < |cs| ==>
      0 <= cs[k].x1 && cs[k].x2 <= cols && 0 <= cs[k].y1 && cs[k].y2 <= rows
  }

  /** Fill a fresh `rows` x `cols` bitmap with every rectangle, then count
      its set cells row by row. */
  method Rasterize(cs: seq<Cells>, rows: nat, cols: nat) returns (total: nat)
    requires FitsGrid(cs, rows, cols)
    ensures total == GridCount(cs, rows, cols)
  {
    var bitmap := new bool[rows, cols]((i, j) => false);
    var k := 0;
    while k < |cs|
      invariant 0 <= k <= |cs|
      invariant forall p, q :: 0 <= p < rows && 0 <= q < cols ==> bitmap[p, q] == CoveredBy(cs[..k], p, q)
    {
      var c := cs[k];
      assert cs[..k + 1][..k] == cs[..k];
      var i := c.y1;
      while i < c.y2
        invariant c.y1 <= i
        invariant forall p, q :: 0 <= p < rows && 0 <= q < cols ==>
          bitmap[p, q] == (CoveredBy(cs[..k], p, q) || (InCells(c, p, q) && p < i))
      {
        var j := c.x1;
        while j < c.x2
          invariant c.x1 <= j
          invariant forall p, q :: 0 <= p < rows && 0 <= q < cols ==>
            bitmap[p, q] == (CoveredBy(cs[..k], p, q) || (InCells(c, p, q) && (p < i || (p == i && q < j))))
        {
          bitmap[i, j] := true;
          j := j + 1;
        }
        i := i + 1;
      }
      k := k + 1;
    }
    assert cs[..k] == cs;
    total := 0;
    var i := 0;
    while i < rows
      invariant 0 <= i <= rows
      invariant total == GridCount(cs, i, cols)
    {
      var rowTotal := 0;
      var j := 0;
      while j < cols
        invariant 0 <= j <= cols
        invariant rowTotal == RowCount(cs, i, j)
      {
        if bitmap[i, j] {
          rowTotal := rowTotal + 1;
        }
        j := j + 1;
      }
      total := total + rowTotal;
      i := i + 1;
    }
  }

  /** Rectangles that stop before column `xMax` and row `yMax` cover at most
      `yMax * xMax` cells of any grid. */
  lemma {:induction false} GridBound(cs: seq<Cells>, m: nat, n: nat, xMax: nat, yMax: nat)
    requires forall k :: 0 <= k < |cs| ==> cs[k].x2 <= xMax && cs[k].y2 <= yMax
    ensures GridCount(cs, m, n) <= IMin(m, yMax) * xMax
  {
    if m > 0 {
      GridBound(cs, m - 1, n, xMax, yMax);
      var i := m - 1;
      forall j | CoveredBy(cs, i, j)
        ensures j < xMax && i < yMax
      {
        CoveredByAny(cs, i, j);
      }
      RowBound(cs, i, n, xMax);
      if i >= yMax {
        RowEmpty(cs, i, n);
        assert IMin(m, yMax) == IMin(i, yMax);
      } else {
        assert IMin(m, yMax) == IMin(i, yMax) + 1;
        assert (IMin(i, yMax) + 1) * xMax == IMin(i, yMax) * xMax + xMax;
      }
    }
  }

  lemma {:induction false} RowBound(cs: seq<Cells>, i: int, n: nat, xMax: nat)
    requires forall j :: CoveredBy(cs, i, j) ==> j < xMax
    ensures RowCount(cs, i, n) <= xMax
  {
    if n > xMax {
      RowBound(cs, i, n - 1, xMax);
      assert !CoveredBy(cs, i, n - 1);
    }
  }

  lemma {:induction false} RowEmpty(cs: seq<Cells>, i: int, n: nat)
    requires forall j :: !CoveredBy(cs, i, j)
    ensures RowCount(cs, i, n) == 0
  {
    if n > 0 {
      RowEmpty(cs, i, n - 1);
    }
  }

  /** With no rectangle nothing is set. */
  lemma {:induction false} EmptyGrid(m: nat, n: nat)
    ensures GridCount([], m, n) == 0
  {
    if m > 0 {
      EmptyGrid(m - 1, n);
      RowEmpty([], m - 1, n);
    }
  }

  /** Filling more rectangles never clears a cell, so the count never
      drops. */
  lemma {:induction false} GridGrows(cs: seq<Cells>, more: seq<Cells>, m: nat, n: nat)
    ensures GridCount(cs, m, n) <= GridCount(cs + more, m, n)
  {
    if m > 0 {
      GridGrows(cs, more, m - 1, n);
      var i := m - 1;
      forall j | CoveredBy(cs, i, j)
        ensures CoveredBy(cs + more, i, j)
      {
        CoveredByAny(cs, i, j);
        CoveredByAny(cs + more, i, j);
        var k :| 0 <= k < |cs| && InCells(cs[k], i, j);
        assert (cs + more)[k] == cs[k];
      }
      RowGrows(cs, cs + more, i, n);
    }
  }

  lemma {:induction false} RowGrows(cs: seq<Cells>, ds: seq<Cells>, i: int, n: nat)
    requires forall j :: CoveredBy(cs, i, j) ==> CoveredBy(ds, i, j)
    ensures RowCount(cs, i, n) <= RowCount(ds, i, n)
  {
    if n > 0 {
      RowGrows(cs, ds, i, n - 1);
    }
  }

  /** Python's `max(lo, min(v, hi))` on integers. */
  function ClipInt(v: int, lo: int, hi: int): (r: int)
    requires lo <= hi
    ensures lo <= r <= hi
    ensures lo <= v <= hi ==> r == v
    ensures v < lo ==> r == lo
    ensures v > hi ==> r == hi
  {
    IMax(lo, IMin(v, hi))
  }

  /** `percentage_area / img_sensitivity` clamped to [0, 1]; a zero
      sensitivity raises ZeroDivisionError (None). */
  function Severity(percentage: real, sensitivity: real): (r: Option<real>)
    ensures r.None? <==> sensitivity == 0.0
    ensures r.Some? ==> 0.0 <= r.value <= 1.0
  {
    if sensitivity == 0.0 then None else Some(Max(0.0, Min(percentage / sensitivity, 1.0)))
  }

  /** More covered area never lowers the severity, whatever the sign of the
      sensitivity. */
  lemma SeverityMonotone(p: real, q: real, sensitivity: real)
    requires 0.0 <= p <= q && sensitivity != 0.0
    ensures Severity(p, sensitivity).value <= Severity(q, sensitivity).value
  {
    if sensitivity > 0.0 {
      assert p / sensitivity <= q / sensitivity;
    } else {
      assert p / sensitivity <= 0.0;
    }
  }

  /** The same for covered cell counts over a grid of `cells` cells. */
  lemma ShareGrows(a: nat, b: nat, cells: nat, sensitivity: real)
    requires a <= b && cells > 0 && sensitivity != 0.0
    ensures Severity(a as real / cells as real, sensitivity).value
         <= Severity(b as real / cells as real, sensitivity).value
  {
    assert a as real / cells as real <= b as real / cells as real;
    SeverityMonotone(a as real / cells as real, b as real / cells as real, sensitivity);
  }

  /** An empty rectangle list covers no share of an `m` x `n` grid of
      `cells` cells, and so gives severity zero. */
  lemma EmptyShare(cs: seq<Cells>, m: nat, n: nat, cells: nat, sensitivity: real)
    requires cs == [] && cells > 0 && sensitivity != 0.0
    ensures GridCount(cs, m, n) as real / cells as real == 0.0
    ensures Severity(GridCount(cs, m, n) as real / cells as real, sensitivity) == Some(0.0)
  {
    EmptyGrid(m, n);
  }

  /** Below full coverage, the severity is the coverage divided by the
      sensitivity. */
  lemma SeverityProportional(p: real, sensitivity: real)
    requires 0.0 <= p <= sensitivity
    requires sensitivity > 0.0
    ensures Severity(p, sensitivity) == Some(p / sensitivity)
  {
    var q := p / sensitivity;
    assert (q - 1.0) * sensitivity == p - sensitivity;
  }

  /** Scale one detection box from the processing grid back to the source
      image: x by `img_width / proc_width`, y by `img_height / proc_height`. */
  function Rescale(b: Box, imgWidth: nat, imgHeight: nat, procWidth: nat, procHeight: nat): (r: Box)
    requires procWidth > 0 && procHeight > 0
    ensures r.x1 * procWidth as real == b.x1 * imgWidth as real
    ensures r.y1 * procHeight as real == b.y1 * imgHeight as real
    ensures r.x2 * procWidth as real == b.x2 * imgWidth as real
    ensures r.y2 * procHeight as real == b.y2 * imgHeight as real
  {
    var ws := imgWidth as real / procWidth as real;
    var hs := imgHeight as real / procHeight as real;
    Box(b.x1 * ws, b.y1 * hs, b.x2 * ws, b.y2 * hs)
  }

  /** Every slot of the detection list is rescaled, zero slots included. */
  function RescaleAll(bs: seq<Box>, imgWidth: nat, imgHeight: nat, procWidth: nat, procHeight: nat): (r: seq<Box>)
    requires procWidth > 0 && procHeight > 0
    ensures |r| == |bs|
    ensures forall k :: 0 <= k < |bs| ==> r[k] == Rescale(bs[k], imgWidth, imgHeight, procWidth, procHeight)
  {
    seq(|bs|, k requires 0 <= k < |bs| => Rescale(bs[k], imgWidth, imgHeight, procWidth, procHeight))
  }

  /** A box inside the processing grid lands inside the source image, and
      the zero box stays zero. */
  lemma RescaleInside(b: Box, imgWidth: nat, imgHeight: nat, procWidth: nat, procHeight: nat)
    requires procWidth > 0 && procHeight > 0
    requires 0.0 <= b.x1 <= procWidth as real && 0.0 <= b.x2 <= procWidth as real
    requires 0.0 <= b.y1 <= procHeight as real && 0.0 <= b.y2 <= procHeight as real
    ensures var r := Rescale(b, imgWidth, imgHeight, procWidth, procHeight);
      && 0.0 <= r.x1 <= imgWidth as real && 0.0 <= r.x2 <= imgWidth as real
      && 0.0 <= r.y1 <= imgHeight as real && 0.0 <= r.y2 <= imgHeight as real
    ensures Rescale(ZeroBox, imgWidth, imgHeight, procWidth, procHeight) == ZeroBox
  {
    var ws := imgWidth as real / procWidth as real;
    var hs := imgHeight as real / procHeight as real;
    assert ws >= 0.0 && hs >= 0.0;
    assert procWidth as real * ws == imgWidth as real;
    assert procHeight as real * hs == imgHeight as real;
    MulMonoReal(ws, b.x1, procWidth as real);
    MulMonoReal(ws, b.x2, procWidth as real);
    MulMonoReal(hs, b.y1, procHeight as real);
    MulMonoReal(hs, b.y2, procHeight as real);
  }

  lemma MulMonoReal(a: real, x: real, y: real)
    requires a >= 0.0 && 0.0 <= x <= y
    ensures 0.0 <= x * a <= y * a
  {
  }
}

// Bilinear interpolation of the learned position grid: four table entries and four
// weights per patch, built over the raster and permuted into merge-block order.

module VisionInterp {
  import opened Arith
  import opened VisionPatches

  // ----- sampling one axis, over the reals

  function LinSpace(n: nat, j: nat): real
    requires j < n
  {
    if n == 1 then 0.0 else ((SIDE - 1) * j) as real / (n - 1) as real
  }

  function Low(n: nat, j: nat): int
    requires j < n
  {
    LinSpace(n, j).Floor
  }

  function High(n: nat, j: nat): int
    requires j < n
  {
    if Low(n, j) + 1 > SIDE - 1 then SIDE - 1 else Low(n, j) + 1
  }

  function Frac(n: nat, j: nat): real
    requires j < n
  {
    LinSpace(n, j) - Low(n, j) as real
  }

  /** The samples run evenly from the first grid point to the last. */
  lemma LinSpaceEven(n: nat, j: nat)
    requires j < n
    ensures LinSpace(n, 0) == 0.0
    ensures n > 1 ==> LinSpace(n, n - 1) == 47.0
    ensures n > 1 ==> Times((n - 1) as real, LinSpace(n, j)) == (47 * j) as real
    ensures j + 1 < n ==>
              Times((n - 1) as real, LinSpace(n, j + 1) - LinSpace(n, j)) == 47.0
  {
    if n > 1 {
      var d := (n - 1) as real;
      Undo(((SIDE - 1) * j) as real, d);
      Undo(((SIDE - 1) * (n - 1)) as real, d);
      assert ((SIDE - 1) * (n - 1)) as real == (SIDE - 1) as real * d;
      if j + 1 < n {
        Undo(((SIDE - 1) * (j + 1)) as real, d);
        Differ(d, LinSpace(n, j + 1), LinSpace(n, j));
      }
    }
  }

  lemma Undo(x: real, d: real)
    requires d > 0.0
    ensures Times(d, x / d) == x && (d * x) / d == x
  {
  }

  lemma Differ(d: real, x: real, y: real)
    ensures Times(d, x - y) == Times(d, x) - Times(d, y)
  {
  }

  /** Samples stay on the grid, and the fraction is zero where the upper neighbour is
      clipped, so the two neighbours always average back to the sample. */
  lemma AxisSound(n: nat, j: nat)
    requires j < n
    ensures 0 <= Low(n, j) <= High(n, j) <= SIDE - 1
    ensures 0.0 <= Frac(n, j) < 1.0
    ensures Times(1.0 - Frac(n, j), Low(n, j) as real) + Times(Frac(n, j), High(n, j) as real) == LinSpace(n, j)
  {
    var x := LinSpace(n, j);
    if n > 1 {
      var d := (n - 1) as real;
      assert x * d == ((SIDE - 1) * j) as real;
      assert ((SIDE - 1) * j) as real == (SIDE - 1) as real * j as real;
      RatioBelow(x, d, j as real);
    }
    assert 0.0 <= x <= 47.0;
    if Low(n, j) == SIDE - 1 {
      assert x == 47.0 && Frac(n, j) == 0.0;
    } else {
      var f, l := Frac(n, j), Low(n, j) as real;
      assert High(n, j) as real == l + 1.0;
      assert (1.0 - f) * l + f * (l + 1.0) == l + f;
    }
  }

  lemma RatioBelow(x: real, d: real, j: real)
    requires d > 0.0 && 0.0 <= j <= d && x * d == 47.0 * j
    ensures 0.0 <= x <= 47.0
  {
  }

  // ----- the raster tables

  /** Entry s of the flattened outer sum of corner `c`: 0 and 1 use the lower row, 0 and 2
      the lower column. */
  function IndexTable(h: nat, w: nat, c: nat, s: nat): int
    requires w > 0 && s < h * w && c < 4
  {
    RasterSplit(h, w, s);
    var r, q := s / w, s % w;
    (if c < 2 then Low(h, r) else High(h, r)) * SIDE + (if c % 2 == 0 then Low(w, q) else High(w, q))
  }

  function Times(x: real, y: real): real {
    x * y
  }

  function WeightTable(h: nat, w: nat, c: nat, s: nat): real
    requires w > 0 && s < h * w && c < 4
  {
    RasterSplit(h, w, s);
    var r, q := s / w, s % w;
    Times(if c < 2 then 1.0 - Frac(h, r) else Frac(h, r), if c % 2 == 0 then 1.0 - Frac(w, q) else Frac(w, q))
  }

  lemma RasterSplit(h: nat, w: nat, s: nat)
    requires w > 0 && s < h * w
    ensures s / w < h && s % w < w
  {
    SmallQuotient(s, h, w);
  }

  // ----- the permutation

  /** Where row k of the permuted table comes from. The flat table is viewed with
      dimensions (h/m, m, w/m, m); rows are then listed with the dimensions in the order
      (h/m, w/m, m, m). */
  function Source(m: nat, w: nat, k: nat): nat
    requires m > 0 && w >= m
  {
    DivPositive(w, m);
    var i := Unflat(k, w / m, m, m);
    Flat(i.a, i.c, i.b, i.d, m, w / m, m)
  }

  lemma Regroup(row: nat, b: nat, d: nat, mw: nat, m: nat)
    ensures (row * mw + b) * m + d == row * (mw * m) + (b * m + d)
  {
  }

  /** Row k of the permuted tables belongs to the patch that rotary position k names. */
  lemma OrdersAgree(g: Grid, m: nat, k: nat)
    requires ValidGrid(g, m) && g.w >= m && k < g.h * g.w
    ensures var p := Coord(m, g.w, k);
      && p.row < g.h && p.col < g.w
      && Source(m, g.w, k) == p.row * g.w + p.col < g.h * g.w
  {
    Multiple(g.w, m);
    CoordInRaster(g, m, k);
    var i := Unflat(k, g.w / m, m, m);
    var p := Coord(m, g.w, k);
    Regroup(i.a * m + i.c, i.b, i.d, g.w / m, m);
    NextBelow(p.row, p.col, g.h, g.w);
  }

  datatype Row = Row(indices: seq<int>, weights: seq<real>)

  function InterpRow(g: Grid, m: nat, k: nat): Row
    requires ValidGrid(g, m) && k < g.h * g.w
  {
    Multiple(g.w, m);
    OrdersAgree(g, m, k);
    var s := Source(m, g.w, k);
    Row(seq(4, c requires 0 <= c < 4 => IndexTable(g.h, g.w, c, s)),
        seq(4, c requires 0 <= c < 4 => WeightTable(g.h, g.w, c, s)))
  }

  /** The rows the pipeline hands to the model for a one-frame grid. */
  function Interpolate(g: Grid, m: nat): seq<Row>
    requires ValidGrid(g, m) && g.t == 1
  {
    seq(g.h * g.w, k requires 0 <= k < g.h * g.w => InterpRow(g, m, k))
  }

  // ----- what a row means

  function CornerRows(r: Row): seq<int>
    requires |r.indices| == 4
  {
    [r.indices[0] / SIDE, r.indices[1] / SIDE, r.indices[2] / SIDE, r.indices[3] / SIDE]
  }

  function CornerCols(r: Row): seq<int>
    requires |r.indices| == 4
  {
    [r.indices[0] % SIDE, r.indices[1] % SIDE, r.indices[2] % SIDE, r.indices[3] % SIDE]
  }

  function CornerProducts(r: Row): seq<int>
    requires |r.indices| == 4
  {
    seq(4, c requires 0 <= c < 4 => CornerRows(r)[c] * CornerCols(r)[c])
  }

  function Average(r: Row, v: seq<int>): real
    requires |r.weights| == 4 && |v| == 4
  {
    Times(r.weights[0], v[0] as real) + Times(r.weights[1], v[1] as real)
    + Times(r.weights[2], v[2] as real) + Times(r.weights[3], v[3] as real)
  }

  lemma BlendRows(f: real, e: real, lo: real, hi: real)
    ensures Times(Times(1.0 - f, 1.0 - e), lo) + Times(Times(1.0 - f, e), lo)
            + Times(Times(f, 1.0 - e), hi) + Times(Times(f, e), hi)
         == Times(1.0 - f, lo) + Times(f, hi)
  {
  }

  lemma BlendBoth(f: real, e: real, lr: int, hr: int, lc: int, hc: int)
    ensures Times(Times(1.0 - f, 1.0 - e), (lr * lc) as real) + Times(Times(1.0 - f, e), (lr * hc) as real)
            + Times(Times(f, 1.0 - e), (hr * lc) as real) + Times(Times(f, e), (hr * hc) as real)
         == Times(Times(1.0 - f, lr as real) + Times(f, hr as real), Times(1.0 - e, lc as real) + Times(e, hc as real))
  {
    var a, b, c, d := lr as real, hr as real, lc as real, hc as real;
    assert (lr * lc) as real == a * c && (lr * hc) as real == a * d;
    assert (hr * lc) as real == b * c && (hr * hc) as real == b * d;
  }

  lemma BlendCols(f: real, e: real, lo: real, hi: real)
    ensures Times(Times(1.0 - f, 1.0 - e), lo) + Times(Times(1.0 - f, e), hi)
            + Times(Times(f, 1.0 - e), lo) + Times(Times(f, e), hi)
         == Times(1.0 - e, lo) + Times(e, hi)
  {
  }

  lemma IndexParts(row: int, col: int)
    requires 0 <= row < SIDE && 0 <= col < SIDE
    ensures 0 <= row * SIDE + col < SIDE * SIDE
    ensures (row * SIDE + col) / SIDE == row && (row * SIDE + col) % SIDE == col
  {
  }

  lemma TablesAt(h: nat, w: nat, row: nat, col: nat)
    requires row < h && col < w
    ensures row * w + col < h * w
    ensures var s := row * w + col;
      var f, e := Frac(h, row), Frac(w, col);
      var lr, hr, lc, hc := Low(h, row), High(h, row), Low(w, col), High(w, col);
      && IndexTable(h, w, 0, s) == lr * SIDE + lc && IndexTable(h, w, 1, s) == lr * SIDE + hc
      && IndexTable(h, w, 2, s) == hr * SIDE + lc && IndexTable(h, w, 3, s) == hr * SIDE + hc
      && WeightTable(h, w, 0, s) == Times(1.0 - f, 1.0 - e) && WeightTable(h, w, 1, s) == Times(1.0 - f, e)
      && WeightTable(h, w, 2, s) == Times(f, 1.0 - e) && WeightTable(h, w, 3, s) == Times(f, e)
  {
    NextBelow(row, col, h, w);
    DivModOf(row, w, col);
    hide Low, High, Frac, Times;
  }

  lemma RowContents(g: Grid, m: nat, k: nat)
    requires ValidGrid(g, m) && k < g.h * g.w && g.w >= m
    ensures Coord(m, g.w, k).row < g.h && Coord(m, g.w, k).col < g.w
    ensures var r, p := InterpRow(g, m, k), Coord(m, g.w, k);
      var f, e := Frac(g.h, p.row), Frac(g.w, p.col);
      var lr, hr, lc, hc := Low(g.h, p.row), High(g.h, p.row), Low(g.w, p.col), High(g.w, p.col);
      && r.weights == [Times(1.0 - f, 1.0 - e), Times(1.0 - f, e), Times(f, 1.0 - e), Times(f, e)]
      && r.indices == [lr * SIDE + lc, lr * SIDE + hc, hr * SIDE + lc, hr * SIDE + hc]
  {
    OrdersAgree(g, m, k);
    var p, s := Coord(m, g.w, k), Source(m, g.w, k);
    TablesAt(g.h, g.w, p.row, p.col);
    RowEntries(g, m, k);
    hide *;
  }

  lemma RowEntries(g: Grid, m: nat, k: nat)
    requires ValidGrid(g, m) && k < g.h * g.w && g.w >= m
    ensures var r, s := InterpRow(g, m, k), Source(m, g.w, k);
      && s < g.h * g.w
      && r.weights == [WeightTable(g.h, g.w, 0, s), WeightTable(g.h, g.w, 1, s),
                       WeightTable(g.h, g.w, 2, s), WeightTable(g.h, g.w, 3, s)]
      && r.indices == [IndexTable(g.h, g.w, 0, s), IndexTable(g.h, g.w, 1, s),
                       IndexTable(g.h, g.w, 2, s), IndexTable(g.h, g.w, 3, s)]
  {
    OrdersAgree(g, m, k);
    hide Coord, Source, ValidGrid, IndexTable, WeightTable;
  }

  lemma MergePositive(g: Grid, m: nat)
    requires ValidGrid(g, m)
    ensures m > 0
  {
  }

  lemma EntryAt(g: Grid, m: nat, k: nat)
    requires ValidGrid(g, m) && g.t == 1 && k < g.h * g.w && g.w >= m
    ensures Interpolate(g, m)[k] == InterpRow(g, m, k)
    ensures FrameCoords(g, m)[k] == Coord(m, g.w, k)
  {
    hide InterpRow, Coord, ValidGrid;
  }

  /** The four weights of a patch are a partition of one over entries of the 48 by 48
      table, and the weighted corners, rows, columns and products alike, are exactly the
      point sampled for that patch, including at the clipped far edge. That point is row
      and column in even steps from the first table entry to the last. */
  lemma RowSamplesItsPatch(g: Grid, m: nat, k: nat)
    requires ValidGrid(g, m) && g.t == 1 && k < g.h * g.w && g.w >= m
    ensures var r, p := Interpolate(g, m)[k], FrameCoords(g, m)[k];
      && p.row < g.h && p.col < g.w && |r.indices| == |r.weights| == 4
      && (forall c :: 0 <= c < 4 ==> r.weights[c] >= 0.0 && 0 <= r.indices[c] < 2304)
      && Average(r, [1, 1, 1, 1]) == 1.0
      && Average(r, CornerRows(r)) == LinSpace(g.h, p.row)
      && Average(r, CornerCols(r)) == LinSpace(g.w, p.col)
      && Average(r, CornerProducts(r)) == Times(LinSpace(g.h, p.row), LinSpace(g.w, p.col))
      && (g.h > 1 ==> Times((g.h - 1) as real, Average(r, CornerRows(r))) == (47 * p.row) as real)
      && (g.w > 1 ==> Times((g.w - 1) as real, Average(r, CornerCols(r))) == (47 * p.col) as real)
      && (g.h == 1 ==> Average(r, CornerRows(r)) == 0.0) && (g.w == 1 ==> Average(r, CornerCols(r)) == 0.0)
  {
    hide *;
    MergePositive(g, m);
    RowContents(g, m, k);
    var r, p := InterpRow(g, m, k), Coord(m, g.w, k);
    EntryAt(g, m, k);
    AxisSound(g.h, p.row);
    AxisSound(g.w, p.col);
    LinSpaceEven(g.h, p.row);
    LinSpaceEven(g.w, p.col);
    RowFacts(r, Frac(g.h, p.row), Frac(g.w, p.col), Low(g.h, p.row), High(g.h, p.row),
             Low(g.w, p.col), High(g.w, p.col));
  }

  lemma RowFacts(r: Row, f: real, e: real, lr: int, hr: int, lc: int, hc: int)
    requires r.weights == [Times(1.0 - f, 1.0 - e), Times(1.0 - f, e), Times(f, 1.0 - e), Times(f, e)]
    requires r.indices == [lr * SIDE + lc, lr * SIDE + hc, hr * SIDE + lc, hr * SIDE + hc]
    requires 0.0 <= f < 1.0 && 0.0 <= e < 1.0
    requires 0 <= lr <= hr < SIDE && 0 <= lc <= hc < SIDE
    ensures forall c :: 0 <= c < 4 ==> r.weights[c] >= 0.0 && 0 <= r.indices[c] < 2304
    ensures Average(r, [1, 1, 1, 1]) == 1.0
    ensures Average(r, CornerRows(r)) == Times(1.0 - f, lr as real) + Times(f, hr as real)
    ensures Average(r, CornerCols(r)) == Times(1.0 - e, lc as real) + Times(e, hc as real)
    ensures Average(r, CornerProducts(r))
         == Times(Times(1.0 - f, lr as real) + Times(f, hr as real), Times(1.0 - e, lc as real) + Times(e, hc as real))
  {
    IndexParts(lr, lc);
    IndexParts(lr, hc);
    IndexParts(hr, lc);
    IndexParts(hr, hc);
    assert CornerRows(r) == [lr, lr, hr, hr] && CornerCols(r) == [lc, hc, lc, hc];
    assert CornerProducts(r) == [lr * lc, lr * hc, hr * lc, hr * hc];
    hide CornerRows, CornerCols, CornerProducts;
    BlendBoth(f, e, lr, hr, lc, hc);
    NonNegative(1.0 - f, 1.0 - e);
    NonNegative(1.0 - f, e);
    NonNegative(f, 1.0 - e);
    NonNegative(f, e);
    BlendRows(f, e, 1.0, 1.0);
    BlendRows(f, e, lr as real, hr as real);
    BlendCols(f, e, lc as real, hc as real);
    UnitBlend(f);
    hide Times;
  }

  lemma NonNegative(x: real, y: real)
    requires x >= 0.0 && y >= 0.0
    ensures Times(x, y) >= 0.0
  {
  }

  lemma UnitBlend(f: real)
    ensures Times(1.0 - f, 1.0) + Times(f, 1.0) == 1.0
  {
  }
}

// The two places where the Qwen pipeline orders the patches of an image: rotary positions
// listed block by block, and position-embedding tables built over the raster and then
// permuted. Row k of one must be about the same patch as row k of the other.

module VisionPatches {
  import opened Arith

  const SIDE: nat := 48  // num_grid_per_side

  datatype Pos = Pos(row: nat, col: nat)
  datatype Grid = Grid(t: nat, h: nat, w: nat)

  /** The pipeline's processor hands over grids whose sides are multiples of the merge size. */
  predicate ValidGrid(g: Grid, m: nat) {
    m > 0 && g.t > 0 && g.h > 0 && g.w > 0 && g.h % m == 0 && g.w % m == 0
  }

  // ----- row-major indices

  /** Row-major index of (a, b, c, d) in a tensor whose last three dimensions are d1, d2, d3. */
  function Flat(a: nat, b: nat, c: nat, d: nat, d1: nat, d2: nat, d3: nat): nat {
    ((a * d1 + b) * d2 + c) * d3 + d
  }

  datatype Index4 = Index4(a: nat, b: nat, c: nat, d: nat)

  function Unflat(k: nat, d1: nat, d2: nat, d3: nat): Index4
    requires d1 > 0 && d2 > 0 && d3 > 0
  {
    Index4(k / d3 / d2 / d1, k / d3 / d2 % d1, k / d3 % d2, k % d3)
  }

  lemma UnflatFlat(a: nat, b: nat, c: nat, d: nat, d1: nat, d2: nat, d3: nat)
    requires b < d1 && c < d2 && d < d3
    ensures Unflat(Flat(a, b, c, d, d1, d2, d3), d1, d2, d3) == Index4(a, b, c, d)
  {
    DivModOf(a, d1, b);
    DivModOf(a * d1 + b, d2, c);
    DivModOf((a * d1 + b) * d2 + c, d3, d);
  }

  lemma FlatUnflat(k: nat, d1: nat, d2: nat, d3: nat)
    requires d1 > 0 && d2 > 0 && d3 > 0
    ensures var i := Unflat(k, d1, d2, d3);
      && i.b < d1 && i.c < d2 && i.d < d3
      && Flat(i.a, i.b, i.c, i.d, d1, d2, d3) == k
  {
  }

  // ----- rotary positions

  /** Entry k of the flattened (block row, block column, row, column) tensor. */
  function Coord(m: nat, w: nat, k: nat): Pos
    requires m > 0 && w >= m
  {
    var mw := w / m;
    var i := (DivPositive(w, m); Unflat(k, mw, m, m));
    Pos(i.a * m + i.c, i.b * m + i.d)
  }

  lemma DivPositive(w: nat, m: nat)
    requires 0 < m <= w
    ensures w / m > 0
  {
  }

  function FrameCoords(g: Grid, m: nat): seq<Pos>
    requires ValidGrid(g, m)
  {
    Multiple(g.w, m);
    seq(g.h * g.w, k requires 0 <= k < g.h * g.w => Coord(m, g.w, k))
  }

  lemma Multiple(w: nat, m: nat)
    requires m > 0 && w > 0 && w % m == 0
    ensures w >= m && w / m > 0 && w == w / m * m
  {
  }

  function Repeated(s: seq<Pos>, n: nat): seq<Pos> {
    if n == 0 then [] else Repeated(s, n - 1) + s
  }

  function AllCoords(grids: seq<Grid>, m: nat): seq<Pos>
    requires forall i :: 0 <= i < |grids| ==> ValidGrid(grids[i], m)
  {
    if grids == [] then []
    else
      var n := |grids| - 1;
      AllCoords(grids[..n], m) + Repeated(FrameCoords(grids[n], m), grids[n].t)
  }

  function TotalTokens(grids: seq<Grid>): nat {
    if grids == [] then 0
    else
      var g := grids[|grids| - 1];
      TotalTokens(grids[..|grids| - 1]) + g.t * (g.h * g.w)
  }

  lemma {:induction false} RepeatedLength(s: seq<Pos>, n: nat)
    ensures |Repeated(s, n)| == n * |s|
  {
    if n > 0 {
      RepeatedLength(s, n - 1);
      assert n * |s| == (n - 1) * |s| + |s|;
    }
  }

  lemma {:induction false} TotalTokensGrow(grids: seq<Grid>, n: nat)
    requires n <= |grids|
    ensures TotalTokens(grids[..n]) <= TotalTokens(grids)
    decreases |grids|
  {
    if n < |grids| {
      var init := grids[..|grids| - 1];
      TotalTokensGrow(init, n);
      assert init[..n] == grids[..n];
    } else {
      assert grids[..n] == grids;
    }
  }

  method SetSlice(a: array<Pos>, offset: nat, coords: seq<Pos>)
    requires offset + |coords| <= a.Length
    modifies a
    ensures a[..offset + |coords|] == old(a[..offset]) + coords
  {
    forall j | 0 <= j < |coords| {
      a[offset + j] := coords[j];
    }
  }

  /** The coordinates of one grid, repeated for its frames. */
  method GridCoords(g: Grid, m: nat) returns (coords: seq<Pos>)
    requires ValidGrid(g, m)
    ensures coords == Repeated(FrameCoords(g, m), g.t) && |coords| == g.t * (g.h * g.w)
  {
    coords := FrameCoords(g, m);
    hide FrameCoords;
    RepeatedLength(coords, g.t);
    if g.t > 1 {
      coords := Repeated(coords, g.t);
    } else {
      assert Repeated(coords, 1) == Repeated(coords, 0) + coords;
    }
  }

  /** Fill the position table grid by grid, one slice per grid. */
  method RotPos(grids: seq<Grid>, m: nat) returns (posIds: array<Pos>)
    requires forall i :: 0 <= i < |grids| ==> ValidGrid(grids[i], m)
    ensures fresh(posIds) && posIds[..] == AllCoords(grids, m)
  {
    var total := 0;
    for i := 0 to |grids|
      invariant total == TotalTokens(grids[..i])
    {
      assert grids[..i + 1][..i] == grids[..i];
      total := total + grids[i].t * (grids[i].h * grids[i].w);
    }
    assert grids[..|grids|] == grids;
    posIds := new Pos[total](i => Pos(0, 0));
    var offset := 0;
    for i := 0 to |grids|
      invariant offset == TotalTokens(grids[..i]) <= posIds.Length
      invariant posIds[..offset] == AllCoords(grids[..i], m)
    {
      var g := grids[i];
      assert ValidGrid(g, m);
      hide FrameCoords, Repeated, ValidGrid;
      assert grids[..i + 1][..i] == grids[..i];
      TotalTokensGrow(grids, i + 1);
      var coords := GridCoords(g, m);
      var numTokens := |coords|;
      SetSlice(posIds, offset, coords);
      offset := offset + numTokens;
    }
  }

  // ----- every patch once

  /** The token that carries the patch at (row, col). */
  function TokenOf(m: nat, w: nat, p: Pos): nat
    requires m > 0
  {
    Flat(p.row / m, p.col / m, p.row % m, p.col % m, w / m, m, m)
  }

  lemma QuotientBelow(x: nat, n: nat, m: nat)
    requires m > 0 && n % m == 0 && x < n
    ensures x / m < n / m
  {
  }

  lemma FlatBelow(a: nat, b: nat, c: nat, d: nat, d0: nat, d1: nat, d2: nat, d3: nat)
    requires a < d0 && b < d1 && c < d2 && d < d3
    ensures Flat(a, b, c, d, d1, d2, d3) < d0 * d1 * d2 * d3
  {
    NextBelow(a, b, d0, d1);
    NextBelow(a * d1 + b, c, d0 * d1, d2);
    NextBelow((a * d1 + b) * d2 + c, d, d0 * d1 * d2, d3);
  }

  lemma Volume(g: Grid, m: nat)
    requires ValidGrid(g, m)
    ensures g.h / m * (g.w / m) * m * m == g.h * g.w
  {
  }

  /** The rotary order lists every patch of the raster exactly once: each patch has a
      token, and that token is the only one that names it. */
  lemma EveryPatchOnce(g: Grid, m: nat, p: Pos)
    requires ValidGrid(g, m) && p.row < g.h && p.col < g.w
    ensures TokenOf(m, g.w, p) < g.h * g.w
    ensures g.w >= m && Coord(m, g.w, TokenOf(m, g.w, p)) == p
    ensures forall k :: 0 <= k < g.h * g.w && Coord(m, g.w, k) == p ==> k == TokenOf(m, g.w, p)
  {
    hide Coord, TokenOf;
    PatchHasToken(g, m, p);
    forall k | 0 <= k < g.h * g.w && Coord(m, g.w, k) == p
      ensures k == TokenOf(m, g.w, p)
    {
      CoordInverse(g, m, k);
    }
  }

  lemma PatchHasToken(g: Grid, m: nat, p: Pos)
    requires ValidGrid(g, m) && p.row < g.h && p.col < g.w
    ensures TokenOf(m, g.w, p) < g.h * g.w
    ensures g.w >= m && Coord(m, g.w, TokenOf(m, g.w, p)) == p
  {
    Multiple(g.w, m);
    QuotientBelow(p.row, g.h, m);
    QuotientBelow(p.col, g.w, m);
    FlatBelow(p.row / m, p.col / m, p.row % m, p.col % m, g.h / m, g.w / m, m, m);
    Volume(g, m);
    UnflatFlat(p.row / m, p.col / m, p.row % m, p.col % m, g.w / m, m, m);
    assert p.row == p.row / m * m + p.row % m && p.col == p.col / m * m + p.col % m;
    hide Flat, Unflat;
  }

  lemma CoordInverse(g: Grid, m: nat, k: nat)
    requires ValidGrid(g, m) && g.w >= m
    ensures TokenOf(m, g.w, Coord(m, g.w, k)) == k
  {
    Multiple(g.w, m);
    var i := Unflat(k, g.w / m, m, m);
    FlatUnflat(k, g.w / m, m, m);
    DivModOf(i.a, m, i.c);
    DivModOf(i.b, m, i.d);
  }

  lemma CoordInRaster(g: Grid, m: nat, k: nat)
    requires ValidGrid(g, m) && g.w >= m && k < g.h * g.w
    ensures Coord(m, g.w, k).row < g.h && Coord(m, g.w, k).col < g.w
  {
    Multiple(g.w, m);
    Multiple(g.h, m);
    Volume(g, m);
    var i := Unflat(k, g.w / m, m, m);
    FlatUnflat(k, g.w / m, m, m);
    NextBelow(i.b, i.d, g.w / m, m);
    LargeFlat(i.a, i.b, i.c, i.d, g.h / m, g.w / m, m, m);
    NextBelow(i.a, i.c, g.h / m, m);
  }

  lemma LargeFlat(a: nat, b: nat, c: nat, d: nat, d0: nat, d1: nat, d2: nat, d3: nat)
    ensures a >= d0 ==> Flat(a, b, c, d, d1, d2, d3) >= d0 * d1 * d2 * d3
  {
    if a < d0 {
      return;
    }
    MulMonotone(d0, a, d1);
    MulMonotone(d0 * d1, a * d1 + b, d2);
    MulMonotone(d0 * d1 * d2, (a * d1 + b) * d2 + c, d3);
  }

  // ----- the order of the patches

  /** The patches of an m by m block are consecutive, row by row, and so are the blocks: the
      d-th patch of row c of block (a, b) is token ((a * w/m + b) * m + c) * m + d. */
  lemma BlockByBlock(m: nat, w: nat, a: nat, b: nat, c: nat, d: nat)
    requires 0 < m <= w && b < w / m && c < m && d < m
    ensures Flat(a, b, c, d, w / m, m, m) == ((a * (w / m) + b) * m + c) * m + d
    ensures Coord(m, w, Flat(a, b, c, d, w / m, m, m)) == Pos(a * m + c, b * m + d)
  {
    UnflatFlat(a, b, c, d, w / m, m, m);
  }

  /** Grids follow each other, and the frames of a grid: token k of frame f of grid i is the
      patch that token k of the grid names. */
  lemma {:induction false} GridByGrid(grids: seq<Grid>, m: nat, i: nat, f: nat, k: nat)
    requires forall j :: 0 <= j < |grids| ==> ValidGrid(grids[j], m)
    requires i < |grids| && f < grids[i].t && k < grids[i].h * grids[i].w && grids[i].w >= m > 0
    ensures var at := TotalTokens(grids[..i]) + (f * (grids[i].h * grids[i].w) + k);
      at < |AllCoords(grids, m)| && AllCoords(grids, m)[at] == Coord(m, grids[i].w, k)
    decreases |grids|
  {
    hide *;
    var n, g := |grids| - 1, grids[i];
    var init, frames := grids[..n], FrameCoords(g, m);
    TokensCount(init, m);
    LastGrid(grids, m);
    if i < n {
      assert init[..i] == grids[..i];
      GridByGrid(init, m, i, f, k);
    } else {
      assert grids[..i] == init;
      FrameAt(g, m, k);
      RepeatedAt(frames, g.t, f, k);
    }
  }

  lemma LastGrid(grids: seq<Grid>, m: nat)
    requires grids != [] && forall j :: 0 <= j < |grids| ==> ValidGrid(grids[j], m)
    ensures var n := |grids| - 1;
      AllCoords(grids, m) == AllCoords(grids[..n], m) + Repeated(FrameCoords(grids[n], m), grids[n].t)
  {
    hide Repeated, FrameCoords, ValidGrid;
  }

  lemma FrameAt(g: Grid, m: nat, k: nat)
    requires ValidGrid(g, m) && k < g.h * g.w && g.w >= m && m > 0
    ensures |FrameCoords(g, m)| == g.h * g.w && FrameCoords(g, m)[k] == Coord(m, g.w, k)
  {
    hide Coord;
  }

  lemma {:induction false} TokensCount(grids: seq<Grid>, m: nat)
    requires forall j :: 0 <= j < |grids| ==> ValidGrid(grids[j], m)
    ensures |AllCoords(grids, m)| == TotalTokens(grids)
  {
    if grids != [] {
      var n := |grids| - 1;
      TokensCount(grids[..n], m);
      FrameLength(grids[n], m);
      hide FrameCoords;
      RepeatedLength(FrameCoords(grids[n], m), grids[n].t);
    }
  }

  lemma FrameLength(g: Grid, m: nat)
    requires ValidGrid(g, m)
    ensures |FrameCoords(g, m)| == g.h * g.w
  {
    hide Coord;
  }

  lemma {:induction false} RepeatedAt(s: seq<Pos>, n: nat, f: nat, k: nat)
    requires f < n && k < |s|
    ensures f * |s| + k < |Repeated(s, n)| && Repeated(s, n)[f * |s| + k] == s[k]
  {
    RepeatedLength(s, n - 1);
    if f < n - 1 {
      RepeatedAt(s, n - 1, f, k);
    }
  }
}

// Three-axis rotary positions for a row of text tokens and runs of vision pad tokens:
// the row is walked image by image, each block starting one past the largest position
// used by the block before it.

module RopeIndex {
  import opened Arith
  import opened VisionPatches

  datatype Triple = Triple(t: int, h: int, w: int)
  datatype Option<T> = None | Some(value: T)

  /** Token ids, and the spatial merge size. */
  datatype Config = Config(visionStart: int, imagePad: int, padId: int, merge: nat) {
    predicate Valid() {
      merge > 0
    }
  }

  function Max2(x: int, y: int): int {
    if x >= y then x else y
  }

  function Top(p: Triple): int {
    Max2(p.t, Max2(p.h, p.w))
  }

  function MaxEntry(b: seq<Triple>): (m: int)
    requires b != []
    ensures forall i :: 0 <= i < |b| ==> Top(b[i]) <= m
    ensures exists i :: 0 <= i < |b| && Top(b[i]) == m
  {
    if |b| == 1 then Top(b[0])
    else
      var m := MaxEntry(b[1..]);
      assert forall i :: 1 <= i < |b| ==> b[i] == b[1..][i - 1];
      var i :| 0 <= i < |b[1..]| && Top(b[1..][i]) == m;
      assert Top(b[i + 1]) == m;
      Max2(Top(b[0]), m)
  }

  // ----- blocks

  function TextBlock(start: int, n: nat): seq<Triple> {
    seq(n, i => Triple(start + i, start + i, start + i))
  }

  function Area(t: nat, h: nat, w: nat): nat {
    t * h * w
  }

  /** The block of a t x h x w grid of merged patches, flattened row-major. */
  function VisionBlock(start: int, t: nat, h: nat, w: nat): seq<Triple> {
    if h == 0 || w == 0 then []
    else seq(Area(t, h, w), k requires 0 <= k => Triple(start + k / w / h, start + k / w % h, start + k % w))
  }

  function Extent(t: nat, h: nat, w: nat): nat {
    Max2(t, Max2(h, w))
  }

  function MergedH(c: Config, g: Grid): nat
    requires c.Valid()
  {
    g.h / c.merge
  }

  function MergedW(c: Config, g: Grid): nat
    requires c.Valid()
  {
    g.w / c.merge
  }

  /** The grid used for the image with running number `index`: video pads all use the first
      grid, one frame at a time. None is an index error. */
  function GridOf(c: Config, grids: seq<Grid>, index: nat): Option<Grid> {
    if c.padId == c.imagePad then (if index < |grids| then Some(grids[index]) else None)
    else if grids == [] then None
    else Some(Grid(1, grids[0].h, grids[0].w))
  }

  /** Position of the first pad token at or after `st`. */
  function FindPad(tokens: seq<int>, pad: int, st: nat): Option<nat>
    decreases |tokens| - st
  {
    if st >= |tokens| then None
    else if tokens[st] == pad then Some(st)
    else FindPad(tokens, pad, st + 1)
  }

  /** Where the text before the next image ends; None is a value error. A row without any
      pad token has its end pretended one past the row. */
  function EndOfText(tokens: seq<int>, pad: int, st: nat): Option<nat> {
    if pad in tokens then FindPad(tokens, pad, st) else Some(|tokens| + 1)
  }

  /** One past the largest position of the last block; None is the error of taking the
      maximum of an empty block. */
  function NextStart(blocks: seq<seq<Triple>>): Option<int> {
    if blocks == [] then Some(0)
    else
      var b := blocks[|blocks| - 1];
      if b == [] then None else Some(MaxEntry(b) + 1)
  }

  function Join(blocks: seq<seq<Triple>>): seq<Triple> {
    if blocks == [] then [] else Join(blocks[..|blocks| - 1]) + blocks[|blocks| - 1]
  }

  datatype Walk = Walk(st: nat, blocks: seq<seq<Triple>>)

  /** One image: the text before it and its vision block. */
  function StepImage(c: Config, tokens: seq<int>, grids: seq<Grid>, index: nat, s: Walk): Option<Walk>
    requires c.Valid()
  {
    match (EndOfText(tokens, c.padId, s.st), GridOf(c, grids, index), NextStart(s.blocks))
    case (Some(ed), Some(g), Some(next)) =>
      if ed < s.st then None
      else
        var n := ed - s.st;
        var h, w := MergedH(c, g), MergedW(c, g);
        Some(Walk(ed + Area(g.t, h, w),
                  s.blocks + [TextBlock(next, n), VisionBlock(next + n, g.t, h, w)]))
    case _ => None
  }

  function WalkImages(c: Config, tokens: seq<int>, grids: seq<Grid>, index: nat, n: nat, s: Walk): Option<Walk>
    requires c.Valid()
    decreases n
  {
    if n == 0 then Some(s)
    else
      match StepImage(c, tokens, grids, index, s)
      case None => None
      case Some(s') => WalkImages(c, tokens, grids, index + 1, n - 1, s')
  }

  /** The trailing text, and the check that the row has been covered. */
  function Finish(tokens: seq<int>, s: Walk): Option<seq<Triple>> {
    if s.st < |tokens| then
      match NextStart(s.blocks)
      case None => None
      case Some(next) => Some(Join(s.blocks + [TextBlock(next, |tokens| - s.st)]))
    else if s.blocks == [] || s.st != |tokens| then None
    else Some(Join(s.blocks))
  }

  function CountOf(tokens: seq<int>, x: int): nat {
    if tokens == [] then 0 else CountOf(tokens[..|tokens| - 1], x) + (if tokens[|tokens| - 1] == x then 1 else 0)
  }

  /** The positions of a row whose first image has running number `index`, or None where
      the pipeline raises an error. */
  function RowPositions(c: Config, tokens: seq<int>, grids: seq<Grid>, index: nat): Option<seq<Triple>>
    requires c.Valid()
  {
    match WalkImages(c, tokens, grids, index, CountOf(tokens, c.visionStart), Walk(0, []))
    case None => None
    case Some(s) => Finish(tokens, s)
  }

  method IndexOf(tokens: seq<int>, pad: int, st: nat) returns (r: Option<nat>)
    ensures r == FindPad(tokens, pad, st)
  {
    var i := st;
    while i < |tokens|
      invariant st <= i
      invariant FindPad(tokens, pad, st) == FindPad(tokens, pad, i)
      decreases |tokens| - i
    {
      if tokens[i] == pad {
        return Some(i);
      }
      i := i + 1;
    }
    return None;
  }

  method CountStarts(tokens: seq<int>, x: int) returns (n: nat)
    ensures n == CountOf(tokens, x)
  {
    n := 0;
    for i := 0 to |tokens|
      invariant n == CountOf(tokens[..i], x)
    {
      assert tokens[..i + 1][..i] == tokens[..i];
      if tokens[i] == x {
        n := n + 1;
      }
    }
    assert tokens[..|tokens|] == tokens;
  }

  /** The body of the image loop. */
  method PlaceImage(c: Config, tokens: seq<int>, grids: seq<Grid>, index: nat, s: Walk) returns (r: Option<Walk>)
    requires c.Valid()
    ensures r == StepImage(c, tokens, grids, index, s)
  {
    var edImage: Option<nat>;
    if c.padId in tokens {
      edImage := IndexOf(tokens, c.padId, s.st);
    } else {
      edImage := Some(|tokens| + 1);
    }
    var grid := GridOf(c, grids, index);
    var start := NextStart(s.blocks);
    if edImage.None? || grid.None? || start.None? || edImage.value < s.st {
      return None;
    }
    var g := grid.value;
    var h, w := MergedH(c, g), MergedW(c, g);
    var textLen := edImage.value - s.st;
    var stIdx := start.value;
    var blocks := s.blocks + [TextBlock(stIdx, textLen)];
    blocks := blocks + [VisionBlock(textLen + stIdx, g.t, h, w)];
    assert blocks == s.blocks + [TextBlock(stIdx, textLen), VisionBlock(stIdx + textLen, g.t, h, w)];
    return Some(Walk(edImage.value + Area(g.t, h, w), blocks));
  }

  /** One row of the batch. */
  method GetRowIndex(c: Config, tokens: seq<int>, grids: seq<Grid>, index: nat)
    returns (r: Option<seq<Triple>>, nextIndex: nat)
    requires c.Valid()
    ensures r == RowPositions(c, tokens, grids, index)
    ensures r.Some? ==> nextIndex == index + CountOf(tokens, c.visionStart)
  {
    hide StepImage;
    var imageNums := CountStarts(tokens, c.visionStart);
    var s := Walk(0, []);
    nextIndex := index;
    ghost var whole := WalkImages(c, tokens, grids, index, imageNums, s);
    for i := 0 to imageNums
      invariant nextIndex == index + i
      invariant WalkImages(c, tokens, grids, nextIndex, imageNums - i, s) == whole
    {
      var next := PlaceImage(c, tokens, grids, nextIndex, s);
      if next.None? {
        return None, nextIndex;
      }
      s := next.value;
      nextIndex := nextIndex + 1;
    }
    var blocks := s.blocks;
    if s.st < |tokens| {
      var start := NextStart(blocks);
      if start.None? {
        return None, nextIndex;
      }
      blocks := blocks + [TextBlock(start.value, |tokens| - s.st)];
    } else if blocks == [] || s.st != |tokens| {
      return None, nextIndex;
    }
    return Some(Join(blocks)), nextIndex;
  }

  /** All rows; the running image number carries over from row to row. */
  function AllRows(c: Config, rows: seq<seq<int>>, grids: seq<Grid>, index: nat): Option<seq<seq<Triple>>>
    requires c.Valid()
    decreases rows
  {
    if rows == [] then Some([])
    else
      match (RowPositions(c, rows[0], grids, index),
             AllRows(c, rows[1..], grids, index + CountOf(rows[0], c.visionStart)))
      case (Some(p), Some(ps)) => Some([p] + ps)
      case _ => None
  }

  method GetRopeIndex(c: Config, rows: seq<seq<int>>, grids: seq<Grid>) returns (r: Option<seq<seq<Triple>>>)
    requires c.Valid()
    ensures r == AllRows(c, rows, grids, 0)
  {
    var out: seq<seq<Triple>> := [];
    var index := 0;
    ghost var whole := AllRows(c, rows, grids, 0);
    assert rows[0..] == rows;
    PrependNone(whole);
    hide RowPositions;
    for i := 0 to |rows|
      invariant whole == Prepend(out, AllRows(c, rows[i..], grids, index))
    {
      assert rows[i..][0] == rows[i] && rows[i..][1..] == rows[i + 1..];
      var row;
      row, index := GetRowIndex(c, rows[i], grids, index);
      if row.None? {
        return None;
      }
      PrependOne(out, row.value, AllRows(c, rows[i + 1..], grids, index));
      out := out + [row.value];
    }
    assert rows[|rows|..] == [];
    assert out + [] == out;
    return Some(out);
  }

  function Prepend(a: seq<seq<Triple>>, b: Option<seq<seq<Triple>>>): Option<seq<seq<Triple>>> {
    match b
    case None => None
    case Some(ps) => Some(a + ps)
  }

  lemma PrependNone(b: Option<seq<seq<Triple>>>)
    ensures Prepend([], b) == b
  {
    if b.Some? {
      assert [] + b.value == b.value;
    }
  }

  lemma PrependOne(a: seq<seq<Triple>>, p: seq<Triple>, b: Option<seq<seq<Triple>>>)
    ensures Prepend(a, Prepend([p], b)) == Prepend(a + [p], b)
  {
    if b.Some? {
      assert a + ([p] + b.value) == (a + [p]) + b.value;
    }
  }

  // ----- one triple per token, on any row

  lemma Regroup3<T>(x: seq<T>, y: seq<T>, z: seq<T>)
    ensures (x + y) + z == x + (y + z)
  {
  }

  lemma {:induction false} JoinAppend(a: seq<seq<Triple>>, b: seq<seq<Triple>>)
    ensures Join(a + b) == Join(a) + Join(b)
  {
    if b == [] {
      assert a + b == a;
    } else {
      var n := |b| - 1;
      JoinAppend(a, b[..n]);
      assert (a + b)[..|a + b| - 1] == a + b[..n] && (a + b)[|a + b| - 1] == b[n];
      Regroup3(Join(a), Join(b[..n]), b[n]);
    }
  }

  lemma JoinTwo(x: seq<Triple>, y: seq<Triple>)
    ensures Join([x, y]) == x + y
  {
    assert [x, y][..1] == [x] && [x][..0] == [];
    assert Join([x]) == [] + x;
  }

  lemma VisionLength(start: int, t: nat, h: nat, w: nat)
    ensures |VisionBlock(start, t, h, w)| == Area(t, h, w)
  {
  }

  lemma {:induction false} WalkCovers(c: Config, tokens: seq<int>, grids: seq<Grid>, index: nat, n: nat, s: Walk)
    requires c.Valid() && |Join(s.blocks)| == s.st
    ensures var r := WalkImages(c, tokens, grids, index, n, s);
      r.Some? ==> |Join(r.value.blocks)| == r.value.st
    decreases n
  {
    if n > 0 {
      var s' := StepImage(c, tokens, grids, index, s);
      if s'.Some? {
        var k := |s.blocks|;
        var text, vision := s'.value.blocks[k], s'.value.blocks[k + 1];
        assert s'.value.blocks == s.blocks + [text, vision];
        JoinAppend(s.blocks, [text, vision]);
        JoinTwo(text, vision);
        var g := GridOf(c, grids, index).value;
        VisionLength(NextStart(s.blocks).value + |text|, g.t, MergedH(c, g), MergedW(c, g));
        WalkCovers(c, tokens, grids, index + 1, n - 1, s'.value);
      }
    }
  }

  /** Whatever the row, if the pipeline returns positions there is one triple per token. */
  lemma OneTriplePerToken(c: Config, tokens: seq<int>, grids: seq<Grid>, index: nat)
    requires c.Valid()
    ensures var r := RowPositions(c, tokens, grids, index); r.Some? ==> |r.value| == |tokens|
  {
    var n := CountOf(tokens, c.visionStart);
    WalkCovers(c, tokens, grids, index, n, Walk(0, []));
    var r := WalkImages(c, tokens, grids, index, n, Walk(0, []));
    if r.Some? && r.value.st < |tokens| && NextStart(r.value.blocks).Some? {
      var tail := TextBlock(NextStart(r.value.blocks).value, |tokens| - r.value.st);
      JoinAppend(r.value.blocks, [tail]);
      assert Join([tail]) == Join([]) + tail;
    }
  }

  // ----- well-formed rows

  /** Text that leads up to an image, and the image's grid. */
  datatype Segment = Segment(text: seq<int>, grid: Grid)

  function PadCount(c: Config, g: Grid): nat
    requires c.Valid()
  {
    Area(g.t, MergedH(c, g), MergedW(c, g))
  }

  function Pads(pad: int, n: nat): seq<int> {
    seq(n, i => pad)
  }

  function Layout(c: Config, segs: seq<Segment>, tail: seq<int>): seq<int>
    requires c.Valid()
  {
    if segs == [] then tail
    else segs[0].text + (Pads(c.padId, PadCount(c, segs[0].grid)) + Layout(c, segs[1..], tail))
  }

  /** Text without pad tokens, and for each image of the row a run of pads as long as its
      merged grid. */
  ghost predicate WellFormedRow(c: Config, segs: seq<Segment>, tail: seq<int>, grids: seq<Grid>, index: nat) {
    && c.Valid()
    && c.padId !in tail
    && (forall i :: 0 <= i < |segs| ==>
          && c.padId !in segs[i].text
          && PadCount(c, segs[i].grid) > 0
          && GridOf(c, grids, index + i) == Some(segs[i].grid))
  }

  function ExtentOf(c: Config, g: Grid): nat
    requires c.Valid()
  {
    Extent(g.t, MergedH(c, g), MergedW(c, g))
  }

  /** The positions of one segment: text counts up one by one, then the image spans its
      grid. */
  function SegmentPositions(c: Config, seg: Segment, start: int): seq<Triple>
    requires c.Valid()
  {
    TextBlock(start, |seg.text|)
    + VisionBlock(start + |seg.text|, seg.grid.t, MergedH(c, seg.grid), MergedW(c, seg.grid))
  }

  /** The number of positions it uses up: its text, and its grid's longest side. */
  function SegmentSpan(c: Config, seg: Segment): nat
    requires c.Valid()
  {
    |seg.text| + ExtentOf(c, seg.grid)
  }

  /** The positions of a well-formed row. */
  function Expected(c: Config, segs: seq<Segment>, tail: seq<int>, start: int): seq<Triple>
    requires c.Valid()
  {
    if segs == [] then TextBlock(start, |tail|)
    else SegmentPositions(c, segs[0], start) + Expected(c, segs[1..], tail, start + SegmentSpan(c, segs[0]))
  }

  lemma PositiveArea(t: nat, h: nat, w: nat)
    requires Area(t, h, w) > 0
    ensures t > 0 && h > 0 && w > 0
    ensures Extent(t, h, w) <= Area(t, h, w)
  {
    assert t * h * w == t * (h * w);
    assert t == 0 ==> t * (h * w) == 0;
    assert h == 0 || w == 0 ==> h * w == 0;
    AtLeastFactor(h, w);
    AtLeastFactor(t, h * w);
  }

  lemma VisionEntry(start: int, t: nat, h: nat, w: nat, k: nat)
    requires h > 0 && w > 0 && k < Area(t, h, w)
    ensures var p := VisionBlock(start, t, h, w)[k];
      && start <= p.t < start + t && start <= p.h < start + h && start <= p.w < start + w
  {
    assert k == k / w * w + k % w && k / w == k / w / h * h + k / w % h;
    assert k < t * h * w == (t * h) * w;
    SmallQuotient(k, t * h, w);
    SmallQuotient(k / w, t, h);
  }

  /** A vision block reaches exactly as far as the longest side of its grid. */
  lemma VisionMax(start: int, t: nat, h: nat, w: nat)
    requires Area(t, h, w) > 0
    ensures VisionBlock(start, t, h, w) != []
    ensures MaxEntry(VisionBlock(start, t, h, w)) == start + Extent(t, h, w) - 1
  {
    PositiveArea(t, h, w);
    var b := VisionBlock(start, t, h, w);
    forall k | 0 <= k < |b| ensures Top(b[k]) <= start + Extent(t, h, w) - 1 {
      VisionEntry(start, t, h, w, k);
    }
    LastCell(t, h, w);
    assert Top(b[|b| - 1]) == start + Extent(t, h, w) - 1;
  }

  lemma LastCell(t: nat, h: nat, w: nat)
    requires t > 0 && h > 0 && w > 0
    ensures var k := Area(t, h, w) - 1;
      k >= 0 && k / w / h == t - 1 && k / w % h == h - 1 && k % w == w - 1
  {
    LastOf(t, h);
    LastOf(t * h, w);
    AtLeastFactor(t, h);
    AtLeastFactor(t * h, w);
    assert Area(t, h, w) == (t * h) * w;
    hide Area;
    DivModOf(t * h - 1, w, w - 1);
    DivModOf(t - 1, h, h - 1);
  }

  lemma LastOf(n: nat, w: nat)
    requires n > 0 && w > 0
    ensures (n - 1) * w + (w - 1) == n * w - 1
  {
  }

  lemma {:induction false} FindPadAfter(a: seq<int>, text: seq<int>, rest: seq<int>, pad: int)
    requires pad !in text && rest != [] && rest[0] == pad
    ensures pad in a + (text + rest)
    ensures FindPad(a + (text + rest), pad, |a|) == Some(|a| + |text|)
    decreases |text|
  {
    var all := a + (text + rest);
    assert all[|a| + |text|] == pad;
    if text != [] {
      assert all[|a|] == text[0];
      assert all == (a + [text[0]]) + (text[1..] + rest);
      FindPadAfter(a + [text[0]], text[1..], rest, pad);
    }
  }

  lemma StepOnLayout(c: Config, before: seq<int>, segs: seq<Segment>, tail: seq<int>,
                     grids: seq<Grid>, index: nat, s: Walk, start: int)
    requires segs != [] && WellFormedRow(c, segs, tail, grids, index)
    requires s.st == |before| && NextStart(s.blocks) == Some(start)
    ensures var s' := AfterSegment(c, segs[0], s, start);
      && StepImage(c, before + Layout(c, segs, tail), grids, index, s) == Some(s')
      && NextStart(s'.blocks) == Some(start + SegmentSpan(c, segs[0]))
      && Join(s'.blocks) == Join(s.blocks) + SegmentPositions(c, segs[0], start)
  {
    hide FindPad, VisionBlock, TextBlock, ExtentOf, NextStart, MergedH, MergedW, Join, SegmentPositions;
    var g, n := segs[0].grid, |segs[0].text|;
    assert GridOf(c, grids, index + 0) == Some(g) && PadCount(c, g) > 0;
    FindPadAfter(before, segs[0].text, Pads(c.padId, PadCount(c, g)) + Layout(c, segs[1..], tail), c.padId);
    NextAfterImage(c, s.blocks, TextBlock(start, n), start + n, g);
    AfterSegmentJoins(c, segs[0], s, start);
    hide GridOf, WellFormedRow;
  }

  lemma NextAfterImage(c: Config, blocks: seq<seq<Triple>>, text: seq<Triple>, start: int, g: Grid)
    requires c.Valid() && PadCount(c, g) > 0
    ensures NextStart(blocks + [text, VisionBlock(start, g.t, MergedH(c, g), MergedW(c, g))])
         == Some(start + ExtentOf(c, g))
  {
    VisionMax(start, g.t, MergedH(c, g), MergedW(c, g));
    hide VisionBlock, MaxEntry, MergedH, MergedW;
  }

  lemma {:induction false} WalkOnLayout(c: Config, before: seq<int>, segs: seq<Segment>, tail: seq<int>,
                                        grids: seq<Grid>, index: nat, s: Walk, start: int)
    requires WellFormedRow(c, segs, tail, grids, index)
    requires s.st == |before| && NextStart(s.blocks) == Some(start)
    requires s.blocks != [] || Layout(c, segs, tail) != []
    ensures var tokens := before + Layout(c, segs, tail);
      var r := WalkImages(c, tokens, grids, index, |segs|, s);
      r.Some? && Finish(tokens, r.value) == Some(Join(s.blocks) + Expected(c, segs, tail, start))
    decreases |segs|
  {
    if segs == [] {
      FinishTail(before, tail, s, start);
    } else {
      var seg, rest := segs[0], segs[1..];
      var s' := AfterSegment(c, seg, s, start);
      var next := start + SegmentSpan(c, seg);
      StepOnLayout(c, before, segs, tail, grids, index, s, start);
      var before' := LayoutShift(c, before, segs, tail);
      RestWellFormed(c, segs, tail, grids, index);
      ExpectedCons(c, segs, tail, start);
      WalkCons(c, before + Layout(c, segs, tail), grids, index, |rest|, s);
      hide *;
      assert |segs| == |rest| + 1;
      WalkOnLayout(c, before', rest, tail, grids, index + 1, s', next);
      Regroup3(Join(s.blocks), SegmentPositions(c, seg, start), Expected(c, rest, tail, next));
    }
  }

  lemma WalkCons(c: Config, tokens: seq<int>, grids: seq<Grid>, index: nat, n: nat, s: Walk)
    requires c.Valid() && StepImage(c, tokens, grids, index, s).Some?
    ensures WalkImages(c, tokens, grids, index, n + 1, s)
         == WalkImages(c, tokens, grids, index + 1, n, StepImage(c, tokens, grids, index, s).value)
  {
    hide StepImage;
  }

  lemma ExpectedCons(c: Config, segs: seq<Segment>, tail: seq<int>, start: int)
    requires c.Valid() && segs != []
    ensures Expected(c, segs, tail, start)
         == SegmentPositions(c, segs[0], start) + Expected(c, segs[1..], tail, start + SegmentSpan(c, segs[0]))
  {
    hide SegmentPositions, SegmentSpan;
  }

  /** The state of the walk after one more segment. */
  function AfterSegment(c: Config, seg: Segment, s: Walk, start: int): (s': Walk)
    requires c.Valid()
    ensures s'.st == s.st + |seg.text| + PadCount(c, seg.grid) && s'.blocks != []
  {
    var g, n := seg.grid, |seg.text|;
    Walk(s.st + n + PadCount(c, g),
         s.blocks + [TextBlock(start, n), VisionBlock(start + n, g.t, MergedH(c, g), MergedW(c, g))])
  }

  lemma AfterSegmentJoins(c: Config, seg: Segment, s: Walk, start: int)
    requires c.Valid()
    ensures Join(AfterSegment(c, seg, s, start).blocks) == Join(s.blocks) + SegmentPositions(c, seg, start)
  {
    var g, n := seg.grid, |seg.text|;
    var text, b := TextBlock(start, n), VisionBlock(start + n, g.t, MergedH(c, g), MergedW(c, g));
    JoinAppend(s.blocks, [text, b]);
    JoinTwo(text, b);
  }

  lemma LayoutShift(c: Config, before: seq<int>, segs: seq<Segment>, tail: seq<int>) returns (before': seq<int>)
    requires segs != [] && c.Valid()
    ensures before + Layout(c, segs, tail) == before' + Layout(c, segs[1..], tail)
    ensures |before'| == |before| + |segs[0].text| + PadCount(c, segs[0].grid)
  {
    before' := before + (segs[0].text + Pads(c.padId, PadCount(c, segs[0].grid)));
  }

  lemma RestWellFormed(c: Config, segs: seq<Segment>, tail: seq<int>, grids: seq<Grid>, index: nat)
    requires segs != [] && WellFormedRow(c, segs, tail, grids, index)
    ensures WellFormedRow(c, segs[1..], tail, grids, index + 1)
  {
  }

  lemma FinishTail(before: seq<int>, tail: seq<int>, s: Walk, start: int)
    requires s.st == |before| && NextStart(s.blocks) == Some(start)
    requires s.blocks != [] || tail != []
    ensures Finish(before + tail, s) == Some(Join(s.blocks) + TextBlock(start, |tail|))
  {
    if tail == [] {
      assert Join(s.blocks) + TextBlock(start, 0) == Join(s.blocks);
    } else {
      var t := TextBlock(start, |tail|);
      JoinAppend(s.blocks, [t]);
      assert [t][..0] == [] && Join([t]) == [] + t;
    }
  }

  /** On every well-formed row the pipeline's positions are the expected ones. */
  lemma RowIsExpected(c: Config, segs: seq<Segment>, tail: seq<int>, grids: seq<Grid>, index: nat)
    requires WellFormedRow(c, segs, tail, grids, index) && Layout(c, segs, tail) != []
    requires CountOf(Layout(c, segs, tail), c.visionStart) == |segs|
    ensures RowPositions(c, Layout(c, segs, tail), grids, index) == Some(Expected(c, segs, tail, 0))
  {
    var tokens := Layout(c, segs, tail);
    assert NextStart(Walk(0, []).blocks) == Some(0) && Join(Walk(0, []).blocks) == [];
    hide *;
    WalkOnLayout(c, [], segs, tail, grids, index, Walk(0, []), 0);
    assert [] + tokens == tokens;
    assert [] + Expected(c, segs, tail, 0) == Expected(c, segs, tail, 0);
    RowUnfold(c, tokens, grids, index, |segs|);
  }

  lemma RowUnfold(c: Config, tokens: seq<int>, grids: seq<Grid>, index: nat, n: nat)
    requires c.Valid() && n == CountOf(tokens, c.visionStart)
    ensures var r := WalkImages(c, tokens, grids, index, n, Walk(0, []));
      r.Some? ==> RowPositions(c, tokens, grids, index) == Finish(tokens, r.value)
  {
    hide WalkImages, Finish;
  }

  // ----- what the positions mean

  function Flags(n: nat, b: bool): seq<bool> {
    seq(n, i => b)
  }

  function SegmentIsText(c: Config, seg: Segment): seq<bool>
    requires c.Valid()
  {
    Flags(|seg.text|, true) + Flags(PadCount(c, seg.grid), false)
  }

  /** Which positions of the row are text. */
  function IsText(c: Config, segs: seq<Segment>, tail: seq<int>): seq<bool>
    requires c.Valid()
  {
    if segs == [] then Flags(|tail|, true) else SegmentIsText(c, segs[0]) + IsText(c, segs[1..], tail)
  }

  function Span(c: Config, segs: seq<Segment>, tail: seq<int>): nat
    requires c.Valid()
  {
    if segs == [] then |tail| else SegmentSpan(c, segs[0]) + Span(c, segs[1..], tail)
  }

  function TextCount(segs: seq<Segment>, tail: seq<int>): nat {
    if segs == [] then |tail| else |segs[0].text| + TextCount(segs[1..], tail)
  }

  function ExtentSum(c: Config, segs: seq<Segment>): nat
    requires c.Valid()
  {
    if segs == [] then 0 else ExtentOf(c, segs[0].grid) + ExtentSum(c, segs[1..])
  }

  lemma {:induction false} SpanIs(c: Config, segs: seq<Segment>, tail: seq<int>)
    requires c.Valid()
    ensures Span(c, segs, tail) == TextCount(segs, tail) + ExtentSum(c, segs)
  {
    if segs != [] {
      SpanIs(c, segs[1..], tail);
    }
  }

  /** Text triples have three equal entries and lie strictly past everything before them. */
  ghost predicate TextAhead(ps: seq<Triple>, text: seq<bool>) {
    && |ps| == |text|
    && (forall j :: 0 <= j < |ps| && text[j] ==> ps[j].t == ps[j].h == ps[j].w)
    && (forall i, j :: 0 <= i < j < |ps| && text[j] ==> Top(ps[i]) < ps[j].t)
  }

  /** All entries lie in the `span` positions from `start` on. */
  ghost predicate Within(ps: seq<Triple>, start: int, span: nat) {
    forall i :: 0 <= i < |ps| ==>
      start <= ps[i].t && start <= ps[i].h && start <= ps[i].w && Top(ps[i]) < start + span
  }

  /** The last position of the span is used, and there are enough tokens to fill it. */
  ghost predicate Fills(ps: seq<Triple>, start: int, span: nat) {
    && span <= |ps| && (span == 0 ==> ps == [])
    && (ps != [] ==> exists i :: 0 <= i < |ps| && Top(ps[i]) == start + span - 1)
  }

  ghost predicate Sound(ps: seq<Triple>, text: seq<bool>, start: int, span: nat) {
    TextAhead(ps, text) && Within(ps, start, span) && Fills(ps, start, span)
  }

  lemma TextSound(start: int, n: nat)
    ensures Sound(TextBlock(start, n), Flags(n, true), start, n)
  {
    if n > 0 {
      assert Top(TextBlock(start, n)[n - 1]) == start + n - 1;
    }
  }

  lemma VisionSound(start: int, t: nat, h: nat, w: nat)
    requires Area(t, h, w) > 0
    ensures Sound(VisionBlock(start, t, h, w), Flags(Area(t, h, w), false), start, Extent(t, h, w))
  {
    PositiveArea(t, h, w);
    VisionMax(start, t, h, w);
    var b := VisionBlock(start, t, h, w);
    forall k | 0 <= k < Area(t, h, w)
      ensures start <= b[k].t && start <= b[k].h && start <= b[k].w && Top(b[k]) < start + Extent(t, h, w)
    {
      VisionEntry(start, t, h, w, k);
    }
    hide VisionBlock, Area;
  }

  lemma WithinAppend(a: seq<Triple>, b: seq<Triple>, start: int, m: nat, n: nat)
    requires Within(a, start, m) && Within(b, start + m, n)
    ensures Within(a + b, start, m + n)
  {
    hide Top;
  }

  lemma AheadAppend(a: seq<Triple>, ta: seq<bool>, b: seq<Triple>, tb: seq<bool>, start: int, m: nat, n: nat)
    requires TextAhead(a, ta) && TextAhead(b, tb) && Within(a, start, m) && Within(b, start + m, n)
    ensures TextAhead(a + b, ta + tb)
  {
    hide Top;
    var ps, text := a + b, ta + tb;
    forall i, j | 0 <= i < j < |ps| && text[j] ensures Top(ps[i]) < ps[j].t {
      if j >= |a| {
        assert text[j] == tb[j - |a|] && ps[j] == b[j - |a|];
      }
    }
  }

  lemma FillsAppend(a: seq<Triple>, b: seq<Triple>, start: int, m: nat, n: nat)
    requires Fills(a, start, m) && Fills(b, start + m, n)
    ensures Fills(a + b, start, m + n)
  {
    hide Top;
    var ps := a + b;
    if b != [] {
      var i :| 0 <= i < |b| && Top(b[i]) == start + m + n - 1;
      assert ps[|a| + i] == b[i];
    } else if a != [] {
      var i :| 0 <= i < |a| && Top(a[i]) == start + m - 1;
      assert ps[i] == a[i];
    }
  }

  lemma SoundAppend(a: seq<Triple>, ta: seq<bool>, b: seq<Triple>, tb: seq<bool>, start: int, m: nat, n: nat)
    requires Sound(a, ta, start, m) && Sound(b, tb, start + m, n)
    ensures Sound(a + b, ta + tb, start, m + n)
  {
    hide TextAhead, Within, Fills;
    WithinAppend(a, b, start, m, n);
    AheadAppend(a, ta, b, tb, start, m, n);
    FillsAppend(a, b, start, m, n);
  }

  lemma SegmentSound(c: Config, seg: Segment, start: int)
    requires c.Valid() && PadCount(c, seg.grid) > 0
    ensures Sound(SegmentPositions(c, seg, start), SegmentIsText(c, seg), start, SegmentSpan(c, seg))
  {
    hide Sound, TextBlock, VisionBlock, Flags, MergedH, MergedW;
    var g, n := seg.grid, |seg.text|;
    TextSound(start, n);
    VisionSound(start + n, g.t, MergedH(c, g), MergedW(c, g));
    SoundAppend(TextBlock(start, n), Flags(n, true), VisionBlock(start + n, g.t, MergedH(c, g), MergedW(c, g)),
                Flags(PadCount(c, g), false), start, n, ExtentOf(c, g));
  }

  ghost predicate Padded(c: Config, segs: seq<Segment>)
    requires c.Valid()
  {
    segs == [] || (PadCount(c, segs[0].grid) > 0 && Padded(c, segs[1..]))
  }

  lemma {:induction false} ExpectedSound(c: Config, segs: seq<Segment>, tail: seq<int>, start: int)
    requires c.Valid() && Padded(c, segs)
    ensures Sound(Expected(c, segs, tail, start), IsText(c, segs, tail), start, Span(c, segs, tail))
    decreases |segs|
  {
    hide Sound, TextBlock, Flags, SegmentPositions, SegmentIsText, SegmentSpan, PadCount;
    if segs == [] {
      TextSound(start, |tail|);
    } else {
      var seg, rest := segs[0], segs[1..];
      var next := start + SegmentSpan(c, seg);
      SegmentSound(c, seg, start);
      ExpectedSound(c, rest, tail, next);
      SoundAppend(SegmentPositions(c, seg, start), SegmentIsText(c, seg),
                  Expected(c, rest, tail, next), IsText(c, rest, tail),
                  start, SegmentSpan(c, seg), Span(c, rest, tail));
    }
  }

  lemma {:induction false} RowPadded(c: Config, segs: seq<Segment>, tail: seq<int>, grids: seq<Grid>, index: nat)
    requires WellFormedRow(c, segs, tail, grids, index)
    ensures Padded(c, segs)
  {
    if segs != [] {
      RestWellFormed(c, segs, tail, grids, index);
      RowPadded(c, segs[1..], tail, grids, index + 1);
    }
  }

  lemma ExpectedBounds(c: Config, segs: seq<Segment>, tail: seq<int>, n: nat)
    requires c.Valid() && Padded(c, segs) && |Expected(c, segs, tail, 0)| == n > 0
    ensures var ps := Expected(c, segs, tail, 0);
      && Sound(ps, IsText(c, segs, tail), 0, TextCount(segs, tail) + ExtentSum(c, segs))
      && MaxEntry(ps) + 1 == TextCount(segs, tail) + ExtentSum(c, segs) <= n
  {
    hide *;
    ExpectedSound(c, segs, tail, 0);
    SpanIs(c, segs, tail);
    SoundMax(Expected(c, segs, tail, 0), IsText(c, segs, tail), Span(c, segs, tail));
  }

  /** Well-formed rows get sound positions: one per token; text triples with three equal
      entries, strictly increasing and past every earlier vision position; and a largest
      position of text tokens plus grid extents less one, within the token count. */
  lemma RowPositionsSound(c: Config, segs: seq<Segment>, tail: seq<int>, grids: seq<Grid>, index: nat)
    requires WellFormedRow(c, segs, tail, grids, index) && Layout(c, segs, tail) != []
    requires CountOf(Layout(c, segs, tail), c.visionStart) == |segs|
    ensures var r, n := RowPositions(c, Layout(c, segs, tail), grids, index), |Layout(c, segs, tail)|;
      && r.Some? && |r.value| == n
      && Sound(r.value, IsText(c, segs, tail), 0, TextCount(segs, tail) + ExtentSum(c, segs))
      && MaxEntry(r.value) + 1 == TextCount(segs, tail) + ExtentSum(c, segs) <= n
  {
    assert c.Valid();
    hide *;
    var tokens := Layout(c, segs, tail);
    RowIsExpected(c, segs, tail, grids, index);
    OneTriplePerToken(c, tokens, grids, index);
    RowPadded(c, segs, tail, grids, index);
    ExpectedBounds(c, segs, tail, |tokens|);
  }

  lemma SoundMax(ps: seq<Triple>, text: seq<bool>, span: nat)
    requires Sound(ps, text, 0, span) && ps != []
    ensures span <= |ps| && MaxEntry(ps) == span - 1
  {
    hide Top;
  }

  // ----- every token's position

  /** An image block lists its grid with the column varying fastest, then the row, then the
      frame. */
  lemma VisionEntryAt(start: int, t: nat, h: nat, w: nat, a: nat, b: nat, d: nat)
    requires a < t && b < h && d < w
    ensures (a * h + b) * w + d < Area(t, h, w) == |VisionBlock(start, t, h, w)|
    ensures VisionBlock(start, t, h, w)[(a * h + b) * w + d] == Triple(start + a, start + b, start + d)
  {
    NextBelow(a, b, t, h);
    NextBelow(a * h + b, d, t * h, w);
    DivModOf(a * h + b, w, d);
    DivModOf(a, h, b);
  }

  lemma {:induction false} SegmentAt(c: Config, segs: seq<Segment>, tail: seq<int>, start: int, i: nat)
    requires c.Valid() && i < |segs|
    ensures var at, n := |Layout(c, segs[..i], [])|, |segs[i].text| + PadCount(c, segs[i].grid);
      && at + n <= |Expected(c, segs, tail, start)|
      && Expected(c, segs, tail, start)[at..at + n]
         == SegmentPositions(c, segs[i], start + Span(c, segs[..i], []))
    decreases i
  {
    hide *;
    var head, rest := segs[0], segs[1..];
    var next := start + SegmentSpan(c, head);
    SegmentLength(c, head, start);
    ExpectedCons(c, segs, tail, start);
    var first, others := SegmentPositions(c, head, start), Expected(c, rest, tail, next);
    if i == 0 {
      assert segs[..0] == [];
      NoSegments(c);
      assert (first + others)[..|first|] == first;
    } else {
      SegmentAt(c, rest, tail, next, i - 1);
      LayoutCons(c, segs, i);
      SliceBeyond(first, others, |Layout(c, rest[..i - 1], [])|, |segs[i].text| + PadCount(c, segs[i].grid));
      assert next + Span(c, rest[..i - 1], []) == start + Span(c, segs[..i], []);
    }
  }

  lemma NoSegments(c: Config)
    requires c.Valid()
    ensures Layout(c, [], []) == [] && Span(c, [], []) == 0
  {
  }

  lemma SliceBeyond(a: seq<Triple>, b: seq<Triple>, at: nat, n: nat)
    requires at + n <= |b|
    ensures (a + b)[|a| + at..|a| + at + n] == b[at..at + n]
  {
  }

  lemma LayoutCons(c: Config, segs: seq<Segment>, i: nat)
    requires c.Valid() && 0 < i <= |segs|
    ensures |Layout(c, segs[..i], [])|
         == |segs[0].text| + PadCount(c, segs[0].grid) + |Layout(c, segs[1..][..i - 1], [])|
    ensures Span(c, segs[..i], []) == SegmentSpan(c, segs[0]) + Span(c, segs[1..][..i - 1], [])
  {
    assert segs[..i][1..] == segs[1..][..i - 1];
    hide PadCount, SegmentSpan;
  }

  lemma SegmentLength(c: Config, seg: Segment, start: int)
    requires c.Valid()
    ensures |SegmentPositions(c, seg, start)| == |seg.text| + PadCount(c, seg.grid)
  {
    VisionLength(start + |seg.text|, seg.grid.t, MergedH(c, seg.grid), MergedW(c, seg.grid));
    hide VisionBlock;
  }

  /** The place of a pad within its segment: after the text, row-major in the merged grid. */
  function PadPlace(c: Config, seg: Segment, a: nat, b: nat, d: nat): nat
    requires c.Valid()
  {
    |seg.text| + ((a * MergedH(c, seg.grid) + b) * MergedW(c, seg.grid) + d)
  }

  predicate TokenIs(r: Option<seq<Triple>>, at: nat, p: Triple) {
    r.Some? && at < |r.value| && r.value[at] == p
  }

  lemma IsToken(ps: seq<Triple>, at: nat, p: Triple)
    requires at < |ps| && ps[at] == p
    ensures TokenIs(Some(ps), at, p)
  {
  }

  lemma SliceToken(ps: seq<Triple>, at: nat, n: nat, k: nat, p: Triple)
    requires at + n <= |ps| && k < n && ps[at..at + n][k] == p
    ensures TokenIs(Some(ps), at + k, p)
  {
  }

  /** Every text token of a well-formed row: the j-th of segment i counts on from what the
      segments before it use up. */
  lemma TextTokenAt(c: Config, segs: seq<Segment>, tail: seq<int>, grids: seq<Grid>, index: nat, i: nat, j: nat)
    requires c.Valid() && WellFormedRow(c, segs, tail, grids, index) && i < |segs| && j < |segs[i].text|
    requires CountOf(Layout(c, segs, tail), c.visionStart) == |segs|
    ensures var r := RowPositions(c, Layout(c, segs, tail), grids, index);
      var at, from := |Layout(c, segs[..i], [])| + j, Span(c, segs[..i], []) + j;
      TokenIs(r, at, Triple(from, from, from))
  {
    hide *;
    ConfigValid(c, segs, tail, grids, index);
    LayoutNonEmpty(c, segs, tail, i);
    RowIsExpected(c, segs, tail, grids, index);
    SegmentAt(c, segs, tail, 0, i);
    var from := Span(c, segs[..i], []);
    TextOfSegment(c, segs[i], from, j);
    SliceToken(Expected(c, segs, tail, 0), |Layout(c, segs[..i], [])|, |segs[i].text| + PadCount(c, segs[i].grid), j,
            Triple(from + j, from + j, from + j));
  }

  /** Every pad token: the one for (frame a, row b, column d) of image i lies that far past
      the text before it, along the three axes. */
  lemma PadTokenAt(c: Config, segs: seq<Segment>, tail: seq<int>, grids: seq<Grid>, index: nat,
                   i: nat, a: nat, b: nat, d: nat)
    requires c.Valid() && WellFormedRow(c, segs, tail, grids, index) && i < |segs|
    requires a < segs[i].grid.t && b < MergedH(c, segs[i].grid) && d < MergedW(c, segs[i].grid)
    requires CountOf(Layout(c, segs, tail), c.visionStart) == |segs|
    ensures var r := RowPositions(c, Layout(c, segs, tail), grids, index);
      var at, from := |Layout(c, segs[..i], [])| + PadPlace(c, segs[i], a, b, d),
                      Span(c, segs[..i], []) + |segs[i].text|;
      TokenIs(r, at, Triple(from + a, from + b, from + d))
  {
    hide *;
    ConfigValid(c, segs, tail, grids, index);
    LayoutNonEmpty(c, segs, tail, i);
    RowIsExpected(c, segs, tail, grids, index);
    SegmentAt(c, segs, tail, 0, i);
    var from := Span(c, segs[..i], []);
    PadOfSegment(c, segs[i], from, a, b, d);
    var n := |segs[i].text|;
    SliceToken(Expected(c, segs, tail, 0), |Layout(c, segs[..i], [])|, n + PadCount(c, segs[i].grid),
            PadPlace(c, segs[i], a, b, d), Triple(from + n + a, from + n + b, from + n + d));
  }

  lemma ConfigValid(c: Config, segs: seq<Segment>, tail: seq<int>, grids: seq<Grid>, index: nat)
    requires WellFormedRow(c, segs, tail, grids, index)
    ensures c.Valid() && Padded(c, segs)
  {
    RowPadded(c, segs, tail, grids, index);
  }

  lemma LayoutNonEmpty(c: Config, segs: seq<Segment>, tail: seq<int>, i: nat)
    requires c.Valid() && Padded(c, segs) && i < |segs|
    ensures Layout(c, segs, tail) != []
  {
    assert |Pads(c.padId, PadCount(c, segs[0].grid))| > 0;
  }

  lemma TextOfSegment(c: Config, seg: Segment, start: int, j: nat)
    requires c.Valid() && j < |seg.text|
    ensures j < |seg.text| + PadCount(c, seg.grid) == |SegmentPositions(c, seg, start)|
    ensures SegmentPositions(c, seg, start)[j] == Triple(start + j, start + j, start + j)
  {
    SegmentLength(c, seg, start);
    hide VisionBlock, PadCount;
  }

  lemma PadOfSegment(c: Config, seg: Segment, start: int, a: nat, b: nat, d: nat)
    requires c.Valid() && a < seg.grid.t && b < MergedH(c, seg.grid) && d < MergedW(c, seg.grid)
    ensures var ps, n, k := SegmentPositions(c, seg, start), |seg.text|, PadPlace(c, seg, a, b, d);
      && k < n + PadCount(c, seg.grid) == |ps|
      && ps[k] == Triple(start + n + a, start + n + b, start + n + d)
  {
    hide *;
    SegmentLength(c, seg, start);
    var n, h, w := |seg.text|, MergedH(c, seg.grid), MergedW(c, seg.grid);
    VisionEntryAt(start + n, seg.grid.t, h, w, a, b, d);
    SegmentParts(c, seg, start);
    PadPlaceIs(c, seg, a, b, d);
  }

  lemma PadPlaceIs(c: Config, seg: Segment, a: nat, b: nat, d: nat)
    requires c.Valid()
    ensures PadPlace(c, seg, a, b, d) == |seg.text| + ((a * MergedH(c, seg.grid) + b) * MergedW(c, seg.grid) + d)
  {
  }

  lemma SegmentParts(c: Config, seg: Segment, start: int)
    requires c.Valid()
    ensures var n, g := |seg.text|, seg.grid;
      var v := VisionBlock(start + n, g.t, MergedH(c, g), MergedW(c, g));
      && PadCount(c, g) == Area(g.t, MergedH(c, g), MergedW(c, g))
      && (forall k: nat :: k < |v| && n + k < |SegmentPositions(c, seg, start)| ==>
            SegmentPositions(c, seg, start)[n + k] == v[k])
  {
    hide VisionBlock, MergedH, MergedW, Area;
  }

  /** And the text after the last image. */
  lemma TailTokenAt(c: Config, segs: seq<Segment>, tail: seq<int>, grids: seq<Grid>, index: nat, j: nat)
    requires c.Valid() && WellFormedRow(c, segs, tail, grids, index) && j < |tail|
    requires CountOf(Layout(c, segs, tail), c.visionStart) == |segs|
    ensures var r := RowPositions(c, Layout(c, segs, tail), grids, index);
      var at, from := |Layout(c, segs, [])| + j, Span(c, segs, []) + j;
      TokenIs(r, at, Triple(from, from, from))
  {
    hide *;
    TailAt(c, segs, tail, 0, j);
    RowIsExpected(c, segs, tail, grids, index);
    var from := Span(c, segs, []) + j;
    IsToken(Expected(c, segs, tail, 0), |Layout(c, segs, [])| + j, Triple(from, from, from));
  }

  lemma {:induction false} TailAt(c: Config, segs: seq<Segment>, tail: seq<int>, start: int, j: nat)
    requires c.Valid() && j < |tail|
    ensures Layout(c, segs, tail) != []
    ensures var at, from := |Layout(c, segs, [])| + j, start + Span(c, segs, []) + j;
      at < |Expected(c, segs, tail, start)| && Expected(c, segs, tail, start)[at] == Triple(from, from, from)
    decreases segs
  {
    hide SegmentPositions, SegmentSpan, PadCount, Expected, Layout, Span;
    if segs == [] {
      TailAlone(c, tail, start);
      NoSegments(c);
    } else {
      var next := start + SegmentSpan(c, segs[0]);
      TailAt(c, segs[1..], tail, next, j);
      TailShift(c, segs, tail, start);
    }
  }

  lemma TailAlone(c: Config, tail: seq<int>, start: int)
    requires c.Valid()
    ensures Layout(c, [], tail) == tail && Expected(c, [], tail, start) == TextBlock(start, |tail|)
  {
  }

  lemma TailShift(c: Config, segs: seq<Segment>, tail: seq<int>, start: int)
    requires c.Valid() && segs != []
    ensures var first := SegmentPositions(c, segs[0], start);
      && |Layout(c, segs, tail)| >= |Layout(c, segs[1..], tail)|
      && Expected(c, segs, tail, start)
         == first + Expected(c, segs[1..], tail, start + SegmentSpan(c, segs[0]))
      && |Layout(c, segs, [])| == |first| + |Layout(c, segs[1..], [])|
      && Span(c, segs, []) == SegmentSpan(c, segs[0]) + Span(c, segs[1..], [])
  {
    SegmentLength(c, segs[0], start);
    ExpectedCons(c, segs, tail, start);
    hide SegmentPositions, SegmentSpan, PadCount;
  }

  /** An image's grid is its own; in a video every frame has the size of the first grid. */
  lemma GridOfImage(c: Config, grids: seq<Grid>, index: nat)
    requires index < |grids|
    ensures c.padId == c.imagePad ==> GridOf(c, grids, index) == Some(grids[index])
    ensures c.padId != c.imagePad ==> GridOf(c, grids, index) == Some(Grid(1, grids[0].h, grids[0].w))
  {
  }

  /** The images of a batch are numbered through its rows. */
  lemma {:induction false} RowOfBatch(c: Config, rows: seq<seq<int>>, grids: seq<Grid>, index: nat, i: nat)
    requires c.Valid() && i < |rows| && AllRows(c, rows, grids, index).Some?
    ensures var r := AllRows(c, rows, grids, index).value;
      && |r| == |rows|
      && RowPositions(c, rows[i], grids, index + ImagesIn(c, rows[..i])) == Some(r[i])
    decreases rows
  {
    hide RowPositions, CountOf;
    if |rows| > 1 {
      RowOfBatch(c, rows[1..], grids, index + CountOf(rows[0], c.visionStart), if i == 0 then 0 else i - 1);
      if i > 0 {
        assert rows[..i][1..] == rows[1..][..i - 1];
      }
    }
  }

  function ImagesIn(c: Config, rows: seq<seq<int>>): nat {
    if rows == [] then 0 else CountOf(rows[0], c.visionStart) + ImagesIn(c, rows[1..])
  }
}

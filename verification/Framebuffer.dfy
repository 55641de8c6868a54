// The LVGL flush callback: a rectangle of RGB565 pixels, possibly partly off-screen, is
// written into a mapped framebuffer of 16 or 32 bits per pixel.

module Framebuffer {
  import opened Arith

  type Byte = x: int | 0 <= x < 256
  type Pixel = x: int | 0 <= x < 0x1_0000

  datatype Area = Area(x1: int, y1: int, x2: int, y2: int) {
    function Width(): nat {
      if x2 < x1 then 0 else x2 - x1 + 1
    }

    function Height(): nat {
      if y2 < y1 then 0 else y2 - y1 + 1
    }
  }

  // ----- colours

  function Red5(c: Pixel): nat { c / 2048 % 32 }
  function Green6(c: Pixel): nat { c / 32 % 64 }
  function Blue5(c: Pixel): nat { c % 32 }

  /** Each channel is shifted up into eight bits. */
  function Xrgb8888(c: Pixel): (v: nat)
    ensures v < 0x100_0000
  {
    var r, g, b := Red5(c) * 8, Green6(c) * 4, Blue5(c) * 8;
    r * 65536 + g * 256 + b
  }

  /** Dropping the low bits of each channel again. */
  function ToRgb565(v: nat): nat {
    v / 256 / 256 % 256 / 8 * 2048 + v / 256 % 256 / 4 * 32 + v % 256 / 8
  }

  /** The conversion loses nothing, so distinct colours stay distinct. */
  lemma ColourRoundTrip(c: Pixel)
    ensures ToRgb565(Xrgb8888(c)) == c
  {
    var r, g, b := Red5(c), Green6(c), Blue5(c);
    FieldsRebuild(c);
    var high := (r * 8) * 256 + g * 4;
    assert Xrgb8888(c) == high * 256 + b * 8;
    DivModOf(high, 256, b * 8);
    DivModOf(r * 8, 256, g * 4);
    hide Red5, Green6, Blue5;
    assert r * 8 % 256 == r * 8;
  }

  lemma FieldsRebuild(c: Pixel)
    ensures c == Red5(c) * 2048 + Green6(c) * 32 + Blue5(c)
    ensures Red5(c) < 32 && Green6(c) < 64 && Blue5(c) < 32
  {
  }

  /** The bytes of a pixel, least significant first. */
  function PixelBytes(depth: nat, c: Pixel): (s: seq<Byte>)
    ensures depth == 16 ==> |s| == 2
    ensures depth != 16 ==> |s| == 4
  {
    if depth == 16 then [c % 256, c / 256]
    else
      var v := Xrgb8888(c);
      [v % 256, v / 256 % 256, v / 256 / 256 % 256, 0]
  }

  function LittleEndian(s: seq<Byte>): nat {
    if s == [] then 0 else s[0] + 256 * LittleEndian(s[1..])
  }

  /** The bytes of a pixel, read least significant first, are its value: the colour itself
      at 16 bits, the converted one at 32. */
  lemma BytesAreValue(c: Pixel)
    ensures LittleEndian(PixelBytes(16, c)) == c
    ensures LittleEndian(PixelBytes(32, c)) == Xrgb8888(c)
  {
    hide Xrgb8888;
    TwoBytes(c % 256, c / 256);
    var v := Xrgb8888(c);
    FourBytes(v % 256, v / 256 % 256, v / 256 / 256 % 256);
  }

  lemma TwoBytes(a: Byte, b: Byte)
    ensures LittleEndian([a, b]) == a + 256 * b
  {
    assert [a, b][1..] == [b] && [b][1..] == [];
    assert LittleEndian([b]) == b + 256 * LittleEndian([]);
  }

  lemma FourBytes(a: Byte, b: Byte, c: Byte)
    ensures LittleEndian([a, b, c, 0]) == a + 256 * (b + 256 * c)
  {
    TwoBytes(c, 0);
    assert [a, b, c, 0][1..] == [b, c, 0] && [b, c, 0][1..] == [c, 0];
  }

  lemma FromFields(r: nat, g: nat, b: nat)
    requires r < 32 && g < 64 && b < 32
    ensures r * 2048 + g * 32 + b < 0x1_0000
    ensures Xrgb8888(r * 2048 + g * 32 + b) == r * 8 * 65536 + g * 4 * 256 + b * 8
  {
    var c := r * 2048 + g * 32 + b;
    DivModOf(r, 2048, g * 32 + b);
    DivModOf(r * 64 + g, 32, b);
    assert c / 32 == r * 64 + g;
    DivModOf(r, 64, g);
  }

  /** Red, green and blue keep their places: each converts on its own, a full channel to the
      top bits of its byte. */
  lemma ChannelsInPlace(c: Pixel)
    ensures Xrgb8888(0xF800) == 0xF8_0000 && Xrgb8888(0x07E0) == 0xFC00 && Xrgb8888(0x001F) == 0xF8
    ensures var r, g, b := c / 2048, c / 32 % 64, c % 32;
      Xrgb8888(c) == r * 8 * 65536 + g * 4 * 256 + b * 8
  {
    hide Xrgb8888, Red5, Green6, Blue5;
    FromFields(31, 0, 0);
    FromFields(0, 63, 0);
    FromFields(0, 0, 31);
    WholeFields(c);
    FromFields(c / 2048, c / 32 % 64, c % 32);
  }

  lemma WholeFields(c: Pixel)
    ensures c / 2048 < 32 && c == c / 2048 * 2048 + c / 32 % 64 * 32 + c % 32
  {
    FieldsRebuild(c);
  }

  // ----- addresses

  /** Which pixel of the padded raster an address belongs to, and which byte of it. */
  datatype Place = Place(x: nat, y: nat, byte: nat)

  function PlaceOf(p: nat, stride: nat, size: nat): Place
    requires stride > 0 && size > 0
  {
    Place(p % stride / size, p / stride, p % stride % size)
  }

  /** The bytes of pixel (x, y) are the ones at the address the driver computes. */
  lemma PlaceIff(p: nat, x: nat, y: nat, stride: nat, size: nat)
    requires size > 0 && x * size + size <= stride
    ensures var q, dst := PlaceOf(p, stride, size), y * stride + x * size;
      && (q.x == x && q.y == y <==> dst <= p < dst + size)
      && (q.x == x && q.y == y ==> q.byte == p - dst)
  {
    var dst := y * stride + x * size;
    if dst <= p < dst + size {
      DivModOf(y, stride, x * size + (p - dst));
      DivModOf(x, size, p - dst);
    }
    assert p == p / stride * stride + p % stride;
    assert p % stride == p % stride / size * size + p % stride % size;
  }

  class FrameBuffer {
    const mem: array<Byte>
    const xres: nat
    const yres: nat
    const depth: nat
    const lineLength: nat

    /** What opening the device establishes, and that a line holds a row of pixels. */
    predicate Valid() {
      && depth in {16, 32}
      && lineLength > 0 && lineLength >= xres * Size()
      && mem.Length == lineLength * yres
    }

    function Size(): nat {
      if depth == 16 then 2 else 4
    }

    constructor (xres: nat, yres: nat, depth: nat, lineLength: nat)
      requires depth in {16, 32} && lineLength > 0
      requires lineLength >= xres * (if depth == 16 then 2 else 4)
      ensures Valid() && fresh(mem)
    {
      this.xres, this.yres, this.depth, this.lineLength := xres, yres, depth, lineLength;
      mem := new Byte[lineLength * yres](i => 0);
    }

    predicate OnScreen(x: int, y: int) {
      0 <= x < xres && 0 <= y < yres
    }

    predicate Covers(a: Area, x: int, y: int) {
      a.x1 <= x <= a.x2 && a.y1 <= y <= a.y2
    }

    /** The source element drawn at (x, y): row by row over the whole area, the parts off
        the screen included. */
    function SourceIndex(a: Area, x: int, y: int): int {
      (y - a.y1) * a.Width() + (x - a.x1)
    }

    lemma SourceInBounds(a: Area, x: int, y: int)
      requires Covers(a, x, y)
      ensures 0 <= SourceIndex(a, x, y) < a.Width() * a.Height()
    {
    }

    function Target(p: nat): Place
      requires Valid()
    {
      PlaceOf(p, lineLength, Size())
    }

    /** The byte at address p once the pixels before (x, y) in drawing order are drawn. */
    ghost function Drawn(a: Area, src: seq<Pixel>, before: seq<Byte>, x: int, y: int, p: nat): Byte
      requires Valid() && p < |before| && |src| >= a.Width() * a.Height()
    {
      var q := Target(p);
      if OnScreen(q.x, q.y) && Covers(a, q.x, q.y) && (q.y < y || (q.y == y && q.x < x)) then
        SourceInBounds(a, q.x, q.y);
        PixelBytes(depth, src[SourceIndex(a, q.x, q.y)])[q.byte]
      else before[p]
    }

    /** The byte at address p after the whole area has been flushed over `before`. */
    ghost function Flushed(a: Area, src: seq<Pixel>, before: seq<Byte>, p: nat): Byte
      requires Valid() && p < |before| && |src| >= a.Width() * a.Height()
    {
      var q := Target(p);
      if OnScreen(q.x, q.y) && Covers(a, q.x, q.y) then
        SourceInBounds(a, q.x, q.y);
        PixelBytes(depth, src[SourceIndex(a, q.x, q.y)])[q.byte]
      else before[p]
    }

    /** Reading a pixel back: at its own address, and nowhere else, are its own bytes. */
    lemma PixelReadsBack(a: Area, src: seq<Pixel>, before: seq<Byte>, x: nat, y: nat, j: nat)
      requires Valid() && |src| >= a.Width() * a.Height() && |before| == mem.Length
      requires OnScreen(x, y) && j < Size()
      ensures var p := y * lineLength + x * Size() + j;
        && p < |before|
        && Target(p) == Place(x, y, j)
        && (Covers(a, x, y) ==>
              && 0 <= SourceIndex(a, x, y) < |src|
              && Flushed(a, src, before, p) == PixelBytes(depth, src[SourceIndex(a, x, y)])[j])
        && (!Covers(a, x, y) ==> Flushed(a, src, before, p) == before[p])
    {
      PixelFits(x, y);
      PlaceIff(y * lineLength + x * Size() + j, x, y, lineLength, Size());
      if Covers(a, x, y) {
        SourceInBounds(a, x, y);
      }
      hide PixelBytes, PlaceOf;
    }

    /** Store one on-screen pixel. */
    method PutPixel(x: nat, y: nat, c: Pixel)
      requires Valid() && x < xres && y < yres
      modifies mem
      ensures forall p :: 0 <= p < mem.Length ==>
                mem[p] == if Target(p).x == x && Target(p).y == y then PixelBytes(depth, c)[Target(p).byte]
                          else old(mem[p])
    {
      var size := depth / 8;
      PixelFits(x, y);
      var dst := y * lineLength + x * size;
      ghost var before := mem[..];
      var bytes := PixelBytes(depth, c);
      if depth == 16 {
        mem[dst], mem[dst + 1] := bytes[0], bytes[1];
      } else {
        mem[dst], mem[dst + 1], mem[dst + 2], mem[dst + 3] := bytes[0], bytes[1], bytes[2], bytes[3];
      }
      assert forall p :: 0 <= p < mem.Length ==>
          mem[p] == if dst <= p < dst + size then bytes[p - dst] else before[p];
      hide PixelBytes, PlaceOf;
      forall p | 0 <= p < mem.Length
        ensures mem[p] == if Target(p).x == x && Target(p).y == y then bytes[Target(p).byte] else before[p]
      {
        PlaceIff(p, x, y, lineLength, size);
      }
    }

    lemma PixelFits(x: nat, y: nat)
      requires Valid() && x < xres && y < yres
      ensures x * Size() + Size() <= lineLength
      ensures y * lineLength + x * Size() + Size() <= mem.Length
    {
      MulMonotone(x + 1, xres, Size());
      assert (x + 1) * Size() == x * Size() + Size();
      MulMonotone(y + 1, yres, lineLength);
      assert (y + 1) * lineLength == y * lineLength + lineLength;
      assert lineLength * yres == yres * lineLength;
    }

    /** Draw the area. Every byte of the framebuffer is accounted for: on-screen pixels of
        the area hold their source element, all other bytes are as before. */
    method Flush(a: Area, src: seq<Pixel>)
      requires Valid() && |src| >= a.Width() * a.Height()
      modifies mem
      ensures forall p :: 0 <= p < mem.Length ==>
                mem[p] == Flushed(a, src, old(mem[..]), p)
    {
      var y := a.y1;
      var next := 0;
      ghost var before := mem[..];
      NothingDrawn(a, src, before, a.y1);
      hide Drawn, Flushed;
      while y <= a.y2
        invariant a.y1 <= y && (a.y1 <= a.y2 ==> y <= a.y2 + 1)
        invariant next == (y - a.y1) * a.Width()
        invariant forall p :: 0 <= p < mem.Length ==> mem[p] == Drawn(a, src, before, a.x1, y, p)
        decreases a.y2 - y
      {
        next := FlushRow(a, src, y, next, before);
        assert (y + 1 - a.y1) * a.Width() == (y - a.y1) * a.Width() + a.Width();
        y := y + 1;
      }
      AllDrawn(a, src, before, y);
    }

    /** One row of the area, clipped to the screen; every pixel passed over uses up one
        source element. */
    method FlushRow(a: Area, src: seq<Pixel>, y: int, start: int, ghost before: seq<Byte>) returns (next: int)
      requires Valid() && |src| >= a.Width() * a.Height() && a.y1 <= y <= a.y2
      requires |before| == mem.Length && start == (y - a.y1) * a.Width()
      requires forall p :: 0 <= p < mem.Length ==> mem[p] == Drawn(a, src, before, a.x1, y, p)
      modifies mem
      ensures next == start + a.Width()
      ensures forall p :: 0 <= p < mem.Length ==> mem[p] == Drawn(a, src, before, a.x1, y + 1, p)
    {
      hide Drawn, PlaceOf, PixelBytes;
      var x1 := if a.x1 < 0 then 0 else a.x1;
      var y1 := if a.y1 < 0 then 0 else a.y1;
      var x2 := if a.x2 >= xres then xres - 1 else a.x2;
      var y2 := if a.y2 >= yres then yres - 1 else a.y2;
      next := start;
      var x := a.x1;
      while x <= a.x2
        invariant a.x1 <= x && next == start + (x - a.x1)
        invariant x <= a.x2 + 1 || x == a.x1
        invariant forall p :: 0 <= p < mem.Length ==> mem[p] == Drawn(a, src, before, x, y, p)
        decreases a.x2 - x
      {
        SourceInBounds(a, x, y);
        ghost var now := mem[..];
        if x1 <= x <= x2 && y1 <= y <= y2 {
          PutPixel(x, y, src[next]);
        }
        PixelDrawn(a, src, before, x, y, now, mem[..]);
        next := next + 1;
        x := x + 1;
      }
      RowDrawn(a, src, before, x, y);
    }

    lemma NothingDrawn(a: Area, src: seq<Pixel>, before: seq<Byte>, y: int)
      requires Valid() && |src| >= a.Width() * a.Height() && |before| == mem.Length && y == a.y1
      ensures forall p :: 0 <= p < |before| ==> before[p] == Drawn(a, src, before, a.x1, y, p)
    {
    }

    /** Drawing or skipping pixel (x, y) takes the picture one pixel further. */
    lemma PixelDrawn(a: Area, src: seq<Pixel>, before: seq<Byte>, x: int, y: int, now: seq<Byte>, then_: seq<Byte>)
      requires Valid() && |src| >= a.Width() * a.Height() && |before| == |now| == |then_| == mem.Length
      requires Covers(a, x, y) && 0 <= SourceIndex(a, x, y) < |src|
      requires forall p :: 0 <= p < |now| ==> now[p] == Drawn(a, src, before, x, y, p)
      requires OnScreen(x, y) ==>
                 forall p :: 0 <= p < |now| ==>
                   then_[p] == if Target(p).x == x && Target(p).y == y
                               then PixelBytes(depth, src[SourceIndex(a, x, y)])[Target(p).byte] else now[p]
      requires !OnScreen(x, y) ==> then_ == now
      ensures forall p :: 0 <= p < |then_| ==> then_[p] == Drawn(a, src, before, x + 1, y, p)
    {
      hide PixelBytes, PlaceOf;
    }

    lemma RowDrawn(a: Area, src: seq<Pixel>, before: seq<Byte>, x: int, y: int)
      requires Valid() && |src| >= a.Width() * a.Height() && |before| == mem.Length
      requires x > a.x2
      ensures forall p :: 0 <= p < |before| ==>
                Drawn(a, src, before, x, y, p) == Drawn(a, src, before, a.x1, y + 1, p)
    {
    }

    lemma AllDrawn(a: Area, src: seq<Pixel>, before: seq<Byte>, y: int)
      requires Valid() && |src| >= a.Width() * a.Height() && |before| == mem.Length
      requires y > a.y2
      ensures forall p :: 0 <= p < |before| ==>
                Drawn(a, src, before, a.x1, y, p) == Flushed(a, src, before, p)
    {
    }
  }
}

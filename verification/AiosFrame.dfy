// The AIOS wire format shared by both generations of the UART driver, and the
// vocabulary in which a parse of a byte stream is described: the stream is cut
// into pieces, each of which is either delivered as a frame or thrown away.

module AiosFrame {

  type Byte = x: int | 0 <= x < 256

  const START: Byte := 0x53
  const TAIL0: Byte := 0x0D
  const TAIL1: Byte := 0x0A
  const BUF_SIZE: nat := 64

  const CMD_ERROR: Byte := 0x45
  const CMD_DIRECTION_QUERY: Byte := 0x44
  const CMD_CONFIG: Byte := 0x43
  const CMD_OUTPUT: Byte := 0x4F
  const CMD_READ: Byte := 0x52
  const CMD_INIT: Byte := 0x69

  /** Length on the wire of the frame whose header starts `b`. */
  function FrameLen(b: seq<Byte>): nat
    requires |b| >= 3
  {
    b[2] as int + 5
  }

  /** Start byte, command, length, data, CR LF, and no longer than the buffer. */
  predicate WellFormed(f: seq<Byte>) {
    && 5 <= |f| <= BUF_SIZE
    && f[0] == START
    && |f| == FrameLen(f)
    && f[|f| - 2] == TAIL0
    && f[|f| - 1] == TAIL1
  }

  predicate AllWellFormed(fs: seq<seq<Byte>>) {
    forall i :: 0 <= i < |fs| ==> WellFormed(fs[i])
  }

  predicate NoStart(s: seq<Byte>) {
    START !in s
  }

  function Flatten(xs: seq<seq<Byte>>): seq<Byte> {
    if xs == [] then [] else xs[0] + Flatten(xs[1..])
  }

  /** What becomes of a run of received bytes. */
  datatype Piece = Dropped(bytes: seq<Byte>) | Framed(bytes: seq<Byte>)

  /** The pieces a parser has disposed of, and the bytes it still holds. */
  datatype Parse = Parse(pieces: seq<Piece>, rest: seq<Byte>) {
    function After(done: seq<Piece>): Parse {
      Parse(done + pieces, rest)
    }
  }

  function Bytes(ps: seq<Piece>): seq<Byte> {
    if ps == [] then [] else ps[0].bytes + Bytes(ps[1..])
  }

  /** The delivered frames, in order. */
  function Frames(ps: seq<Piece>): seq<seq<Byte>> {
    if ps == [] then []
    else if ps[0].Framed? then [ps[0].bytes] + Frames(ps[1..])
    else Frames(ps[1..])
  }

  /** The number of bytes thrown away. */
  function DroppedCount(ps: seq<Piece>): nat {
    if ps == [] then 0
    else (if ps[0].Dropped? then |ps[0].bytes| else 0) + DroppedCount(ps[1..])
  }

  function Deliver(fs: seq<seq<Byte>>): seq<Piece> {
    seq(|fs|, i requires 0 <= i < |fs| => Framed(fs[i]))
  }

  predicate FramesWellFormed(ps: seq<Piece>) {
    forall i :: 0 <= i < |ps| && ps[i].Framed? ==> WellFormed(ps[i].bytes)
  }

  lemma {:induction false} BytesAppend(p: seq<Piece>, q: seq<Piece>)
    ensures Bytes(p + q) == Bytes(p) + Bytes(q)
  {
    if p == [] {
      assert p + q == q;
    } else {
      assert (p + q)[1..] == p[1..] + q;
      BytesAppend(p[1..], q);
    }
  }

  lemma {:induction false} FramesAppend(p: seq<Piece>, q: seq<Piece>)
    ensures Frames(p + q) == Frames(p) + Frames(q)
  {
    if p == [] {
      assert p + q == q;
    } else {
      assert (p + q)[1..] == p[1..] + q;
      FramesAppend(p[1..], q);
    }
  }

  lemma {:induction false} FramesDeliver(fs: seq<seq<Byte>>)
    ensures Frames(Deliver(fs)) == fs
    ensures Bytes(Deliver(fs)) == Flatten(fs)
  {
    if fs != [] {
      assert Deliver(fs)[1..] == Deliver(fs[1..]);
      FramesDeliver(fs[1..]);
    }
  }

  lemma {:induction false} FlattenAppend(a: seq<seq<Byte>>, b: seq<seq<Byte>>)
    ensures Flatten(a + b) == Flatten(a) + Flatten(b)
  {
    if a == [] {
      assert a + b == b;
    } else {
      assert (a + b)[1..] == a[1..] + b;
      FlattenAppend(a[1..], b);
    }
  }

  lemma {:induction false} FramesAreWellFormed(ps: seq<Piece>)
    requires FramesWellFormed(ps)
    ensures AllWellFormed(Frames(ps))
  {
    if ps != [] {
      FramesAreWellFormed(ps[1..]);
    }
  }

  lemma {:induction false} PieceCount(ps: seq<Piece>)
    ensures DroppedCount(ps) + |Flatten(Frames(ps))| == |Bytes(ps)|
  {
    if ps != [] {
      PieceCount(ps[1..]);
      if ps[0].Framed? {
        assert Frames(ps)[1..] == Frames(ps[1..]);
      }
    }
  }

  predicate SliceAt(stream: seq<Byte>, start: nat, f: seq<Byte>) {
    start + |f| <= |stream| && stream[start..start + |f|] == f
  }

  /** `starts` places the frames `fs` in the stream they were cut from:
      increasing, non-overlapping offsets at which the frames can be read back. */
  ghost predicate Placed(fs: seq<seq<Byte>>, starts: seq<nat>, stream: seq<Byte>) {
    && |starts| == |fs|
    && (forall i :: 0 <= i < |fs| ==> SliceAt(stream, starts[i], fs[i]))
    && (forall i, j :: 0 <= i < j < |fs| ==> starts[i] + |fs[i]| <= starts[j])
  }

  lemma PlacedShift(fs: seq<seq<Byte>>, starts: seq<nat>, head: seq<Byte>, stream: seq<Byte>)
    returns (moved: seq<nat>)
    requires Placed(fs, starts, stream)
    ensures Placed(fs, moved, head + stream)
    ensures forall i :: 0 <= i < |moved| ==> |head| <= moved[i]
  {
    moved := seq(|starts|, i requires 0 <= i < |starts| => starts[i] + |head|);
    forall i | 0 <= i < |fs|
      ensures SliceAt(head + stream, moved[i], fs[i])
    {
      assert SliceAt(stream, starts[i], fs[i]);
      assert (head + stream)[moved[i]..moved[i] + |fs[i]|] == stream[starts[i]..starts[i] + |fs[i]|];
    }
  }

  lemma PlacedCons(f: seq<Byte>, fs: seq<seq<Byte>>, starts: seq<nat>, stream: seq<Byte>)
    requires Placed(fs, starts, stream)
    requires forall i :: 0 <= i < |starts| ==> |f| <= starts[i]
    requires SliceAt(stream, 0, f)
    ensures Placed([f] + fs, [0] + starts, stream)
  {
  }

  lemma {:induction false} PlaceFrames(ps: seq<Piece>, rest: seq<Byte>) returns (starts: seq<nat>)
    ensures Placed(Frames(ps), starts, Bytes(ps) + rest)
  {
    if ps == [] {
      starts := [];
    } else {
      var tail := PlaceFrames(ps[1..], rest);
      var head := ps[0].bytes;
      assert Bytes(ps) + rest == head + (Bytes(ps[1..]) + rest);
      starts := PlacedShift(Frames(ps[1..]), tail, head, Bytes(ps[1..]) + rest);
      if ps[0].Framed? {
        assert (Bytes(ps) + rest)[0..|head|] == head;
        PlacedCons(head, Frames(ps[1..]), starts, Bytes(ps) + rest);
        starts := [0] + starts;
      }
    }
  }

  // ----- cutting a stream into pieces

  /** `p` is a way of cutting up `stream`: nothing is lost, invented or reordered, and
      what is delivered is well formed. */
  ghost predicate CutFrom(p: Parse, stream: seq<Byte>) {
    && Bytes(p.pieces) + p.rest == stream
    && FramesWellFormed(p.pieces)
  }

  lemma CutAfter(p: Parse, piece: Piece, stream: seq<Byte>)
    requires |piece.bytes| <= |stream| && piece.bytes == stream[..|piece.bytes|]
    requires CutFrom(p, stream[|piece.bytes|..])
    requires piece.Framed? ==> WellFormed(piece.bytes)
    ensures CutFrom(p.After([piece]), stream)
  {
  }

  lemma CutNone(p: Parse, stream: seq<Byte>)
    requires CutFrom(p, stream)
    ensures p.After([]) == p
  {
  }

  lemma CutAll(stream: seq<Byte>)
    ensures CutFrom(Parse([Dropped(stream)], []), stream)
  {
    assert Bytes([Dropped(stream)]) == stream + Bytes([]);
  }

  lemma CutNothing(stream: seq<Byte>)
    ensures CutFrom(Parse([], stream), stream + [])
  {
  }

  lemma CutAppend(p: Parse, buf: seq<Byte>, data: seq<Byte>, q: Parse, more: seq<Byte>)
    requires CutFrom(p, buf + data) && CutFrom(q, p.rest + more)
    ensures CutFrom(q.After(p.pieces), buf + (data + more))
  {
    BytesAppend(p.pieces, q.pieces);
    var cut, cut' := Bytes(p.pieces), Bytes(q.pieces);
    hide Bytes;
    assert (cut + cut') + q.rest == cut + (p.rest + more);
    assert cut + (p.rest + more) == (cut + p.rest) + more;
    assert (buf + data) + more == buf + (data + more);
  }

  lemma AfterAfter(p: Parse, pieces: seq<Piece>, cut: seq<Piece>)
    ensures p.After(cut).After(pieces) == p.After(pieces + cut)
  {
    assert pieces + (cut + p.pieces) == (pieces + cut) + p.pieces;
  }
}

// The byte-at-a-time receive path of the 20260124 AIOS driver, described on
// sequences: `Drain` is the framing loop over the buffered bytes, `Feed` adds
// one received byte, `FeedAll` a whole chunk.

module AiosByteParser {
  import opened AiosFrame

  predicate GoodTail(b: seq<Byte>, n: nat)
    requires 5 <= n <= |b|
  {
    b[n - 2] == TAIL0 && b[n - 1] == TAIL1
  }

  /** The framing loop: resynchronise on the start byte, give up on an impossible
      length, wait for more bytes, or deliver a frame and go on. */
  function Drain(buf: seq<Byte>): Parse {
    if |buf| < 3 then Parse([], buf)
    else if buf[0] != START then Drain(buf[1..]).After([Dropped(buf[..1])])
    else if FrameLen(buf) > BUF_SIZE then Parse([Dropped(buf)], [])
    else if |buf| < FrameLen(buf) then Parse([], buf)
    else if !GoodTail(buf, FrameLen(buf)) then Drain(buf[1..]).After([Dropped(buf[..1])])
    else Drain(buf[FrameLen(buf)..]).After([Framed(buf[..FrameLen(buf)])])
  }

  function Feed(buf: seq<Byte>, b: Byte): Parse {
    if buf == [] && b != START then Parse([Dropped([b])], [])
    else if |buf| >= BUF_SIZE then Drain([b]).After([Dropped(buf)])
    else Drain(buf + [b])
  }

  function FeedAll(buf: seq<Byte>, data: seq<Byte>): Parse
    decreases data
  {
    if data == [] then Parse([], buf)
    else
      var p := Feed(buf, data[0]);
      FeedAll(p.rest, data[1..]).After(p.pieces)
  }

  /** What the buffer can look like between two received bytes. */
  predicate Stable(buf: seq<Byte>) {
    && |buf| < BUF_SIZE
    && (|buf| >= 3 ==> buf[0] == START && |buf| < FrameLen(buf) <= BUF_SIZE)
  }

  // ----- what the framing loop keeps

  lemma {:induction false} DrainCuts(buf: seq<Byte>)
    ensures CutFrom(Drain(buf), buf) && Stable(Drain(buf).rest)
  {
    if |buf| < 3 {
    } else {
      var n := FrameLen(buf);
      if buf[0] != START || (n <= |buf| && n <= BUF_SIZE && !GoodTail(buf, n)) {
        DrainCuts(buf[1..]);
        CutAfter(Drain(buf[1..]), Dropped(buf[..1]), buf);
      } else if n > BUF_SIZE {
        CutAll(buf);
      } else if n <= |buf| {
        DrainCuts(buf[n..]);
        CutAfter(Drain(buf[n..]), Framed(buf[..n]), buf);
      }
    }
  }

  lemma FeedCuts(buf: seq<Byte>, b: Byte)
    requires Stable(buf)
    ensures CutFrom(Feed(buf, b), buf + [b]) && Stable(Feed(buf, b).rest)
  {
    if buf == [] && b != START {
      CutAll([b]);
    } else {
      DrainCuts(buf + [b]);
    }
  }

  /** Nothing is invented, reordered or lost track of: whatever the buffer held and
      whatever arrives, the delivered and dropped pieces followed by what is still
      buffered spell the input exactly, every delivered piece is a well-formed
      frame, and the buffer ends within its 63-byte bound. */
  lemma {:induction false} FeedAllCuts(buf: seq<Byte>, data: seq<Byte>)
    requires Stable(buf)
    ensures var p := FeedAll(buf, data);
      && Bytes(p.pieces) + p.rest == buf + data
      && Stable(p.rest)
      && FramesWellFormed(p.pieces)
    decreases data
  {
    hide Feed, Stable;
    if data == [] {
    } else {
      var p := Feed(buf, data[0]);
      FeedCuts(buf, data[0]);
      FeedAllCuts(p.rest, data[1..]);
      CutAppend(p, buf, [data[0]], FeedAll(p.rest, data[1..]), data[1..]);
      assert data == [data[0]] + data[1..];
    }
  }

  /** The chunking of the input does not matter: feeding one chunk and then another
      is feeding their concatenation. */
  lemma {:induction false} FeedAllAppend(buf: seq<Byte>, a: seq<Byte>, b: seq<Byte>)
    ensures FeedAll(buf, a + b)
         == FeedAll(FeedAll(buf, a).rest, b).After(FeedAll(buf, a).pieces)
    decreases a
  {
    hide Feed;
    if a == [] {
      assert a + b == b;
      assert [] + FeedAll(buf, b).pieces == FeedAll(buf, b).pieces;
    } else {
      var p := Feed(buf, a[0]);
      assert (a + b)[1..] == a[1..] + b;
      FeedAllAppend(p.rest, a[1..], b);
      var q := FeedAll(p.rest, a[1..]);
      var r := FeedAll(q.rest, b);
      assert p.pieces + (q.pieces + r.pieces) == (p.pieces + q.pieces) + r.pieces;
    }
  }

  /** The delivered frames are disjoint, contiguous slices of the input, in stream
      order; every byte consumed is in a frame, dropped, or still buffered. */
  lemma FramesAreSlices(buf: seq<Byte>, data: seq<Byte>) returns (starts: seq<nat>)
    requires Stable(buf)
    ensures var p := FeedAll(buf, data);
      && Placed(Frames(p.pieces), starts, buf + data)
      && AllWellFormed(Frames(p.pieces))
      && DroppedCount(p.pieces) + |Flatten(Frames(p.pieces))| + |p.rest| == |buf| + |data|
      && p.rest == (buf + data)[|buf + data| - |p.rest|..]
  {
    var p := FeedAll(buf, data);
    FeedAllCuts(buf, data);
    FramesAreWellFormed(p.pieces);
    PieceCount(p.pieces);
    starts := PlaceFrames(p.pieces, p.rest);
    assert |Bytes(p.pieces)| + |p.rest| == |buf + data|;
  }
}

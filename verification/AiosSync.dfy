// Synchronisation of the byte parser with a stream of well-formed frames: exact
// delivery from a clean start, recovery from any state, and how many bytes of
// silence recovery needs.

module AiosSync {
  import opened AiosFrame
  import opened AiosByteParser

  /** `s` could be the beginning of a frame that is not complete yet. */
  predicate Unfinished(s: seq<Byte>) {
    && (s != [] ==> s[0] == START)
    && (|s| >= 3 ==> |s| < FrameLen(s) <= BUF_SIZE)
  }

  /** A buffer that holds nothing which could swallow a following frame. */
  predicate Synced(buf: seq<Byte>) {
    |buf| <= 2 && NoStart(buf)
  }

  // ----- one frame

  lemma {:induction false} UnfinishedIsHeld(buf: seq<Byte>, data: seq<Byte>)
    requires Unfinished(buf + data)
    ensures FeedAll(buf, data) == Parse([], buf + data)
    decreases data
  {
    if data == [] {
      assert buf + data == buf;
    } else {
      var next := buf + [data[0]];
      assert next + data[1..] == buf + data;
      assert buf == [] ==> (buf + data)[0] == data[0];
      assert Feed(buf, data[0]) == Parse([], next);
      UnfinishedIsHeld(next, data[1..]);
    }
  }

  lemma DrainWholeFrame(f: seq<Byte>)
    requires WellFormed(f)
    ensures Drain(f) == Parse([Framed(f)], [])
  {
    assert Drain([]) == Parse([], []) by {
      hide WellFormed;
    }
    assert [Framed(f)] + [] == [Framed(f)];
    assert f[..FrameLen(f)] == f && f[FrameLen(f)..] == [];
  }

  lemma FeedLast(buf: seq<Byte>, data: seq<Byte>, b: Byte)
    ensures FeedAll(buf, data + [b])
         == Feed(FeedAll(buf, data).rest, b).After(FeedAll(buf, data).pieces)
  {
    FeedAllAppend(buf, data, [b]);
    var r := FeedAll(buf, data).rest;
    assert [b][1..] == [];
    assert FeedAll(r, [b]) == Feed(r, b);
  }

  lemma FrameCompletes(buf: seq<Byte>, data: seq<Byte>)
    requires data != [] && WellFormed(buf + data)
    ensures FeedAll(buf, data) == Parse([Framed(buf + data)], [])
  {
    var n := |data| - 1;
    var f := buf + data;
    var most := f[..|f| - 1];
    assert buf + data[..n] == most;
    UnfinishedIsHeld(buf, data[..n]);
    assert data == data[..n] + [data[n]];
    FeedLast(buf, data[..n], data[n]);
    assert most + [data[n]] == f;
    DrainWholeFrame(f);
    hide Drain, WellFormed;
  }

  // ----- frames separated by noise

  /** Bytes none of which is a start byte, or a frame. */
  datatype Item = Noise(noise: seq<Byte>) | Sent(frame: seq<Byte>) {
    predicate Valid() {
      match this
      case Noise(s) => NoStart(s)
      case Sent(f) => WellFormed(f)
    }

    function Wire(): seq<Byte> {
      match this
      case Noise(s) => s
      case Sent(f) => f
    }
  }

  function WireOf(items: seq<Item>): seq<Byte> {
    if items == [] then [] else items[0].Wire() + WireOf(items[1..])
  }

  function SentFrames(items: seq<Item>): seq<seq<Byte>> {
    if items == [] then []
    else (if items[0].Sent? then [items[0].frame] else []) + SentFrames(items[1..])
  }

  lemma {:induction false} NoiseStaysSynced(buf: seq<Byte>, noise: seq<Byte>)
    requires Synced(buf) && NoStart(noise)
    ensures Synced(FeedAll(buf, noise).rest)
    ensures Frames(FeedAll(buf, noise).pieces) == []
    decreases noise
  {
    if noise != [] {
      var b := noise[0];
      var p := Feed(buf, b);
      if buf != [] {
        var next := buf + [b];
        assert |next| == 3 ==> Drain(next) == Drain(next[1..]).After([Dropped(next[..1])]);
        assert |next| == 3 ==> Drain(next[1..]) == Parse([], next[1..]);
      }
      assert Synced(p.rest) && Frames(p.pieces) == [];
      NoiseStaysSynced(p.rest, noise[1..]);
      FramesAppend(p.pieces, FeedAll(p.rest, noise[1..]).pieces);
    }
  }

  /** Draining a run of non-start bytes that ends in a start byte keeps the start byte. */
  lemma {:induction false} NoiseThenStart(noise: seq<Byte>)
    requires NoStart(noise) && |noise| >= 1
    ensures Drain(noise + [START]).rest == [noise[|noise| - 1], START]
    ensures Frames(Drain(noise + [START]).pieces) == []
  {
    var b := noise + [START];
    if |noise| == 1 {
    } else {
      assert b[1..] == noise[1..] + [START];
      NoiseThenStart(noise[1..]);
    }
  }

  /** The buffer after a start byte has arrived and nothing in front of it matters. */
  predicate Caught(buf: seq<Byte>) {
    buf == [START] || (|buf| == 2 && buf[0] != START && buf[1] == START)
  }

  lemma StartCaught(buf: seq<Byte>)
    requires Synced(buf)
    ensures Caught(Feed(buf, START).rest) && Frames(Feed(buf, START).pieces) == []
  {
    if buf != [] {
      NoiseThenStart(buf);
    }
  }

  lemma CommandCaught(buf: seq<Byte>, cmd: Byte)
    requires Caught(buf)
    ensures Feed(buf, cmd).rest == [START, cmd] && Frames(Feed(buf, cmd).pieces) == []
  {
    if |buf| == 2 {
      var next := buf + [cmd];
      assert next[1..] == [START, cmd];
      assert Drain(next) == Drain(next[1..]).After([Dropped(next[..1])]);
    }
  }

  /** Once the start byte of a frame is caught, the whole frame is delivered. */
  lemma CaughtFrameDelivered(buf: seq<Byte>, f: seq<Byte>)
    requires WellFormed(f)
    requires Caught(Feed(buf, START).rest) && Frames(Feed(buf, START).pieces) == []
    ensures FeedAll(buf, f).rest == []
    ensures Frames(FeedAll(buf, f).pieces) == [f]
    ensures exists junk :: FeedAll(buf, f).pieces == junk + [Framed(f)]
  {
    assert f == [START, f[1]] + f[2..];
    FrameCompletes([START, f[1]], f[2..]);
    hide Feed, WellFormed;
    var p := Feed(buf, START);
    var q := Feed(p.rest, f[1]);
    CommandCaught(p.rest, f[1]);
    var r := FeedAll(q.rest, f[2..]);
    assert r == Parse([Framed(f)], []);
    assert f[1..][1..] == f[2..];
    assert FeedAll(p.rest, f[1..]) == r.After(q.pieces);
    assert FeedAll(buf, f) == r.After(q.pieces).After(p.pieces);
    assert p.pieces + (q.pieces + r.pieces) == (p.pieces + q.pieces) + r.pieces;
    FramesAppend(p.pieces, q.pieces);
    FramesAppend(p.pieces + q.pieces, r.pieces);
    assert FeedAll(buf, f).pieces == (p.pieces + q.pieces) + [Framed(f)];
  }

  lemma FrameFromSynced(buf: seq<Byte>, f: seq<Byte>)
    requires Synced(buf) && WellFormed(f)
    ensures FeedAll(buf, f).rest == []
    ensures Frames(FeedAll(buf, f).pieces) == [f]
  {
    StartCaught(buf);
    CaughtFrameDelivered(buf, f);
  }

  /** From a synchronised buffer, frames mixed with any noise free of start bytes are
      delivered exactly once each and in order. */
  lemma {:induction false} ItemsDelivered(buf: seq<Byte>, items: seq<Item>)
    requires Synced(buf)
    requires forall i :: 0 <= i < |items| ==> items[i].Valid()
    ensures Frames(FeedAll(buf, WireOf(items)).pieces) == SentFrames(items)
    ensures Synced(FeedAll(buf, WireOf(items)).rest)
    decreases items
  {
    if items != [] {
      var w := items[0].Wire();
      assert items[0].Valid();
      match items[0] {
        case Noise(s) => NoiseStaysSynced(buf, s);
        case Sent(f) => FrameFromSynced(buf, f);
      }
      var p := FeedAll(buf, w);
      ItemsDelivered(p.rest, items[1..]);
      FeedAllAppend(buf, w, WireOf(items[1..]));
      FramesAppend(p.pieces, FeedAll(p.rest, WireOf(items[1..])).pieces);
    }
  }

  // ----- round trip

  lemma TailWellFormed(fs: seq<seq<Byte>>)
    requires fs != [] && AllWellFormed(fs)
    ensures WellFormed(fs[0]) && AllWellFormed(fs[1..])
  {
  }

  lemma DeliverCons(fs: seq<seq<Byte>>)
    requires fs != []
    ensures Deliver(fs) == [Framed(fs[0])] + Deliver(fs[1..])
  {
  }

  lemma FrameThenRest(f: seq<Byte>, more: seq<Byte>)
    requires WellFormed(f)
    ensures FeedAll([], f + more) == FeedAll([], more).After([Framed(f)])
  {
    assert [] + f == f;
    FrameCompletes([], f);
    hide Feed, WellFormed;
    FeedAllAppend([], f, more);
  }

  lemma {:induction false} FramesFromEmpty(fs: seq<seq<Byte>>)
    requires AllWellFormed(fs)
    ensures FeedAll([], Flatten(fs)) == Parse(Deliver(fs), [])
  {
    if fs == [] {
      assert Deliver(fs) == [];
    } else {
      TailWellFormed(fs);
      FrameThenRest(fs[0], Flatten(fs[1..]));
      hide FeedAll, WellFormed, Deliver;
      FramesFromEmpty(fs[1..]);
      DeliverCons(fs);
    }
  }

  function FeedChunks(buf: seq<Byte>, chunks: seq<seq<Byte>>): Parse
    decreases chunks
  {
    if chunks == [] then Parse([], buf)
    else
      var p := FeedAll(buf, chunks[0]);
      FeedChunks(p.rest, chunks[1..]).After(p.pieces)
  }

  /** How the transport splits the stream into chunks makes no difference. */
  lemma {:induction false} ChunkingIrrelevant(buf: seq<Byte>, chunks: seq<seq<Byte>>)
    ensures FeedChunks(buf, chunks) == FeedAll(buf, Flatten(chunks))
    decreases chunks
  {
    if chunks != [] {
      var p := FeedAll(buf, chunks[0]);
      ChunkingIrrelevant(p.rest, chunks[1..]);
      FeedAllAppend(buf, chunks[0], Flatten(chunks[1..]));
    }
  }

  /** Round trip: frames written one after the other and split into any chunks are
      delivered exactly, with nothing dropped and nothing left over. */
  lemma RoundTrip(fs: seq<seq<Byte>>, chunks: seq<seq<Byte>>)
    requires AllWellFormed(fs)
    requires Flatten(chunks) == Flatten(fs)
    ensures FeedChunks([], chunks) == Parse(Deliver(fs), [])
    ensures Frames(FeedChunks([], chunks).pieces) == fs
  {
    ChunkingIrrelevant([], chunks);
    FramesFromEmpty(fs);
    FramesDeliver(fs);
  }

  // ----- recovery from any state

  /** A gap of 62 bytes without a start byte lets the parser catch the next start byte
      from every state it can be in. */
  lemma GapCatchesStart(buf: seq<Byte>, gap: seq<Byte>)
    requires Stable(buf) && NoStart(gap) && |gap| >= 62
    ensures var r := FeedAll(buf, gap).rest;
      Caught(Feed(r, START).rest) && Frames(Feed(r, START).pieces) == []
  {
    var r := FeedAll(buf, gap).rest;
    HeldAfterGap(buf, gap);
    if |r| <= |gap| {
      StartCaught(r);
    } else {
      FullBufferCatchesStart(r);
    }
  }

  /** What the buffer holds after a gap is a suffix of the stream, so only the bytes
      that precede the gap can be start bytes. */
  lemma HeldAfterGap(buf: seq<Byte>, gap: seq<Byte>)
    requires Stable(buf) && NoStart(gap)
    ensures var r := FeedAll(buf, gap).rest;
      && Stable(r)
      && |r| <= |buf| + |gap|
      && (forall i :: 0 <= i < |r| && |r| - |gap| <= i ==> r[i] != START)
  {
    var p := FeedAll(buf, gap);
    FeedAllCuts(buf, gap);
    SuffixAvoids(Bytes(p.pieces), p.rest, buf, gap);
  }

  lemma SuffixAvoids(cut: seq<Byte>, r: seq<Byte>, buf: seq<Byte>, gap: seq<Byte>)
    requires cut + r == buf + gap && NoStart(gap)
    ensures |r| <= |buf| + |gap|
    ensures forall i :: 0 <= i < |r| && |r| - |gap| <= i ==> r[i] != START
  {
    assert |cut| + |r| == |buf| + |gap|;
    forall i | 0 <= i < |r| && |r| - |gap| <= i ensures r[i] != START {
      assert r[i] == (cut + r)[|cut| + i] == gap[|cut| + i - |buf|];
    }
  }

  /** A buffer one byte short of a 64-byte candidate, with no second start byte in it. */
  lemma FullBufferCatchesStart(r: seq<Byte>)
    requires |r| == 63 && r[0] == START && FrameLen(r) == 64 && NoStart(r[1..])
    ensures Caught(Feed(r, START).rest) && Frames(Feed(r, START).pieces) == []
  {
    var next := r + [START];
    assert FrameLen(next) == 64 && !GoodTail(next, 64);
    assert next[1..] == r[1..] + [START];
    assert Drain(next) == Drain(next[1..]).After([Dropped(next[..1])]);
    NoiseThenStart(r[1..]);
  }

  /** Self-stabilisation: whatever the buffer holds, once 62 bytes without a start byte
      have gone by every following frame is delivered exactly once, in order and
      last, all earlier bytes having been disposed of. */
  lemma SelfStabilises(buf: seq<Byte>, gap: seq<Byte>, fs: seq<seq<Byte>>)
    returns (stale: seq<Piece>)
    requires Stable(buf) && NoStart(gap) && |gap| >= 62
    requires fs != [] && AllWellFormed(fs)
    ensures FeedAll(buf, gap + Flatten(fs)) == Parse(stale + Deliver(fs), [])
    ensures Bytes(stale) == buf + gap
    ensures Frames(stale) == Frames(FeedAll(buf, gap).pieces)
  {
    hide Feed, WellFormed, Stable;
    var p := FeedAll(buf, gap);
    GapCatchesStart(buf, gap);
    TailWellFormed(fs);
    CaughtFrameDelivered(p.rest, fs[0]);
    var junk :| FeedAll(p.rest, fs[0]).pieces == junk + [Framed(fs[0])];
    stale := p.pieces + junk;
    FramesFromEmpty(fs[1..]);
    FeedAllAppend(p.rest, fs[0], Flatten(fs[1..]));
    FeedAllAppend(buf, gap, Flatten(fs));
    DeliverCons(fs);
    assert p.pieces + ((junk + [Framed(fs[0])]) + Deliver(fs[1..])) == stale + Deliver(fs);
    NoJunkFrames(junk, fs[0]);
    FramesAppend(p.pieces, junk);
    StaleBytes(buf, gap, fs, stale);
  }

  lemma NoJunkFrames(junk: seq<Piece>, f: seq<Byte>)
    requires Frames(junk + [Framed(f)]) == [f]
    ensures Frames(junk) == []
  {
    FramesAppend(junk, [Framed(f)]);
    assert Frames([Framed(f)]) == [f] + Frames([]);
    assert |Frames(junk)| + 1 == |[f]|;
  }

  lemma StaleBytes(buf: seq<Byte>, gap: seq<Byte>, fs: seq<seq<Byte>>, stale: seq<Piece>)
    requires Stable(buf)
    requires FeedAll(buf, gap + Flatten(fs)) == Parse(stale + Deliver(fs), [])
    ensures Bytes(stale) == buf + gap
  {
    FeedAllCuts(buf, gap + Flatten(fs));
    BytesAppend(stale, Deliver(fs));
    FramesDeliver(fs);
    CancelTail(Bytes(stale), buf, gap, Flatten(fs));
  }

  lemma CancelTail(a: seq<Byte>, b: seq<Byte>, c: seq<Byte>, t: seq<Byte>)
    requires (a + t) + [] == b + (c + t)
    ensures a == b + c
  {
    assert |a| == |b + c|;
    assert a == ((a + t) + [])[..|a|];
    assert b + c == (b + (c + t))[..|a|];
  }

  /** With 63 or more bytes the buffer itself is left with at most two harmless bytes. */
  lemma LongGapSyncs(buf: seq<Byte>, gap: seq<Byte>)
    requires Stable(buf) && NoStart(gap) && |gap| >= 63
    ensures Synced(FeedAll(buf, gap).rest)
  {
    HeldAfterGap(buf, gap);
  }

  /** After such a gap the parser is exact for good: whatever was buffered before, the
      frames that follow, mixed with any noise free of start bytes, are delivered once
      each and in order. */
  lemma RecoveredForGood(buf: seq<Byte>, gap: seq<Byte>, items: seq<Item>)
    requires Stable(buf) && NoStart(gap) && |gap| >= 63
    requires forall i :: 0 <= i < |items| ==> items[i].Valid()
    ensures Frames(FeedAll(buf, gap + WireOf(items)).pieces)
         == Frames(FeedAll(buf, gap).pieces) + SentFrames(items)
  {
    var p := FeedAll(buf, gap);
    LongGapSyncs(buf, gap);
    ItemsDelivered(p.rest, items);
    FeedAllAppend(buf, gap, WireOf(items));
    FramesAppend(p.pieces, FeedAll(p.rest, WireOf(items)).pieces);
  }

  /** 61 bytes are not enough, and neither is any shorter gap: with two start bytes at the
      front of the buffer the parser ends up discarding the start byte of the next frame,
      which is lost. */
  lemma ShorterGapLosesFrame(n: nat) returns (buf: seq<Byte>, gap: seq<Byte>, f: seq<Byte>)
    requires n <= 61
    ensures FeedAll([], buf).rest == buf && Stable(buf)
    ensures NoStart(gap) && |gap| == n && WellFormed(f)
    ensures Frames(FeedAll(buf, gap + f).pieces) == []
  {
    hide FeedAll, Feed;
    var held := [START, START, 59, 200] + seq(59, i => 0);
    buf, gap := held[..63 - n], held[63 - n..];
    f := [START, CMD_DIRECTION_QUERY, 0, TAIL0, TAIL1];
    assert [] + buf == buf && buf + gap == held;
    assert Unfinished(buf);
    UnfinishedIsHeld([], buf);
    UnfinishedIsHeld(buf, gap);
    hide Unfinished, Stable, WellFormed;
    FrameAfterLateReset(held, f);
    FeedAllAppend(buf, gap, f);
    assert [] + FeedAll(held, f).pieces == FeedAll(held, f).pieces;
  }

  /** The frames `fs` sent after `gap` come out exactly once each, in order and last. */
  ghost predicate Delivered(buf: seq<Byte>, gap: seq<Byte>, fs: seq<seq<Byte>>) {
    exists stale: seq<Piece> ::
      FeedAll(buf, gap + Flatten(fs)) == Parse(stale + Deliver(fs), []) && Bytes(stale) == buf + gap
  }

  /** Recovery is sure, whatever the buffer holds and whatever the gap and the frames are,
      exactly for gaps of 62 bytes or more. */
  lemma GapSufficesIff(n: nat)
    ensures (forall buf, gap, fs :: Stable(buf) && NoStart(gap) && |gap| == n && fs != [] && AllWellFormed(fs)
                                    ==> Delivered(buf, gap, fs))
       <==> n >= 62
  {
    if n >= 62 {
      forall buf, gap, fs | Stable(buf) && NoStart(gap) && |gap| == n && fs != [] && AllWellFormed(fs)
        ensures Delivered(buf, gap, fs)
      {
        var stale := SelfStabilises(buf, gap, fs);
      }
    } else {
      var buf, gap, f := ShorterGapLosesFrame(n);
      hide FeedAll, Stable, WellFormed;
      NotDelivered(buf, gap, f);
    }
  }

  lemma NotDelivered(buf: seq<Byte>, gap: seq<Byte>, f: seq<Byte>)
    requires Frames(FeedAll(buf, gap + f).pieces) == []
    ensures !Delivered(buf, gap, [f])
  {
    hide FeedAll;
    assert Flatten([f]) == f;
    forall stale: seq<Piece> ensures Frames(stale + Deliver([f])) != [] {
      FramesAppend(stale, Deliver([f]));
      FramesDeliver([f]);
    }
  }

  lemma FrameAfterLateReset(held: seq<Byte>, f: seq<Byte>)
    requires |held| == 63 && held[0] == START && held[1] == START && held[2] == 59 && held[3] == 200
    requires f != [] && f[0] == START && NoStart(f[1..])
    ensures Frames(FeedAll(held, f).pieces) == []
  {
    LateResetDropsStart(held);
    NoiseDropped(f[1..]);
    hide Feed;
    FramesAppend(Feed(held, START).pieces, FeedAll([], f[1..]).pieces);
  }

  /** The start byte completes a 64-byte candidate whose tail is wrong; the candidate
      behind it has an impossible length, and the reset discards the start byte too. */
  lemma LateResetDropsStart(held: seq<Byte>)
    requires |held| == 63 && held[0] == START && held[1] == START && held[2] == 59 && held[3] == 200
    ensures Feed(held, START).rest == [] && Frames(Feed(held, START).pieces) == []
  {
    var full := held + [START];
    var next := full[1..];
    assert FrameLen(full) == 64 && !GoodTail(full, 64);
    assert next[0] == START && FrameLen(next) == 205;
    assert Drain(next) == Parse([Dropped(next)], []);
    assert Drain(full) == Parse([Dropped(full[..1])] + [Dropped(next)], []);
    FramesAppend([Dropped(full[..1])], [Dropped(next)]);
  }

  lemma {:induction false} NoiseDropped(noise: seq<Byte>)
    requires NoStart(noise)
    ensures FeedAll([], noise).rest == [] && Frames(FeedAll([], noise).pieces) == []
  {
    if noise != [] {
      NoiseDropped(noise[1..]);
      FramesAppend([Dropped([noise[0]])], FeedAll([], noise[1..]).pieces);
    }
  }
}

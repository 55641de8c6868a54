// Recovery of the batch parser: how long a stretch without a start byte must be for the
// frames after it to come out, when every chunk fits beside the residue before it.

module AiosBatchSync {
  import opened AiosFrame
  import opened AiosByteParser
  import opened AiosSync
  import opened AiosBatchParser

  function Skipped(noise: seq<Byte>): seq<Piece> {
    if noise == [] then [] else [Dropped(noise)]
  }

  /** Noise before a start byte is dropped, once five bytes are held. */
  lemma NoisyDrain(noise: seq<Byte>, s: seq<Byte>)
    requires NoStart(noise) && s != [] && s[0] == START && |noise + s| >= 5
    ensures BatchDrain(noise + s) == BatchDrain(s).After(Skipped(noise))
  {
    var b := noise + s;
    assert b[|noise|] == START;
    assert FirstStart(b) == |noise| && b[|noise|..] == s && b[..|noise|] == noise;
    assert FirstStart(s) == 0 && s[0..] == s;
    assert [] + BatchAt(s).pieces == BatchAt(s).pieces;
  }

  lemma BytesSkipped(noise: seq<Byte>)
    ensures Bytes(Skipped(noise)) == noise
  {
    if noise != [] {
      assert [Dropped(noise)][1..] == [];
      assert noise + [] == noise;
    }
  }

  lemma FramesNonEmpty(fs: seq<seq<Byte>>)
    requires fs != [] && AllWellFormed(fs)
    ensures |Flatten(fs)| >= 5 && Flatten(fs)[0] == START
  {
    assert WellFormed(fs[0]);
  }

  /** Once the buffer holds noise and the beginning `s` of the stream of frames, the rest
      comes out exactly. */
  lemma {:induction false} AfterNoise(fs: seq<seq<Byte>>, noise: seq<Byte>, s: seq<Byte>, rest: seq<seq<Byte>>)
    requires fs != [] && AllWellFormed(fs) && NoStart(noise)
    requires s != [] && s + Flatten(rest) == Flatten(fs)
    requires Fits(BatchDrain(noise + s).rest, rest)
    ensures var p := BatchDrain(noise + s);
      BatchRun(p.rest, rest).After(p.pieces) == Parse(Skipped(noise) + Deliver(fs), [])
    decreases rest
  {
    FramesNonEmpty(fs);
    assert s[0] == Flatten(fs)[0];
    if |noise + s| < 5 {
      var c := rest[0];
      assert (noise + s) + c == noise + (s + c);
      assert (s + c) + Flatten(rest[1..]) == Flatten(fs);
      if c == [] {
        assert s + c == s;
      }
      AfterNoise(fs, noise, s + c, rest[1..]);
      var p := BatchDrain(noise + (s + c));
      assert [] + BatchRun(p.rest, rest[1..]).After(p.pieces).pieces == BatchRun(p.rest, rest[1..]).After(p.pieces).pieces;
    } else {
      NoisyDrain(noise, s);
      FramesOnTheirOwn(fs, s, rest);
      hide BatchDrain, BatchRun;
      var p := BatchDrain(s);
      AfterAfter(BatchRun(p.rest, rest), Skipped(noise), p.pieces);
    }
  }

  lemma FramesOnTheirOwn(fs: seq<seq<Byte>>, s: seq<Byte>, rest: seq<seq<Byte>>)
    requires AllWellFormed(fs) && s + Flatten(rest) == Flatten(fs)
    requires Fits(BatchDrain(s).rest, rest)
    ensures BatchRun(BatchDrain(s).rest, rest).After(BatchDrain(s).pieces) == Parse(Deliver(fs), [])
  {
    hide BatchDrain, BatchRun, Fits;
    assert s <= Flatten(fs);
    BatchDrainIdeal(fs, s);
    var left := IdealResumes(fs, s, Flatten(rest));
    BatchRunIdeal(left, BatchDrain(s).rest, rest);
    IdealWhole(fs);
  }

  /** The last n bytes of the buffer are no start bytes. */
  predicate QuietTail(r: seq<Byte>, n: nat) {
    forall i :: 0 <= i < |r| && |r| - n <= i ==> r[i] != START
  }

  lemma SuffixQuiet(r: seq<Byte>, n: nat, c: seq<Byte>, p: Parse)
    requires QuietTail(r, n) && NoStart(c) && CutFrom(p, r + c)
    ensures QuietTail(p.rest, n + |c|)
  {
    var q := p.rest;
    assert |Bytes(p.pieces)| + |q| == |r| + |c|;
    forall i | 0 <= i < |q| && |q| - (n + |c|) <= i ensures q[i] != START {
      assert q[i] == (Bytes(p.pieces) + q)[|Bytes(p.pieces)| + i] == (r + c)[|Bytes(p.pieces)| + i];
    }
  }

  lemma FlattenSplits(chunks: seq<seq<Byte>>, gap: seq<Byte>, more: seq<Byte>)
    requires chunks != [] && Flatten(chunks) == gap + more
    ensures |chunks[0]| <= |gap| ==> chunks[0] == gap[..|chunks[0]|] && Flatten(chunks[1..]) == gap[|chunks[0]|..] + more
    ensures |chunks[0]| > |gap| ==> chunks[0] == gap + chunks[0][|gap|..]
                                    && chunks[0][|gap|..] + Flatten(chunks[1..]) == more
  {
    var c, t := chunks[0], Flatten(chunks[1..]);
    assert c + t == gap + more;
    hide Flatten;
    if |c| <= |gap| {
      assert c == (c + t)[..|c|] && t == (c + t)[|c|..];
    } else {
      assert gap == (c + t)[..|gap|] && more == (c + t)[|gap|..];
    }
  }

  /** A chunk that ends the gap and begins a frame fits only beside a quiet buffer. */
  lemma RoomMeansQuiet(r: seq<Byte>, n: nat, gap: seq<Byte>, c: seq<Byte>)
    requires QuietTail(r, n) && NoStart(gap) && n + |gap| >= 63
    requires |c| > |gap| && |r| + |c| <= BUF_SIZE
    ensures NoStart(r + gap)
  {
  }

  lemma StraddlingChunk(r: seq<Byte>, gap: seq<Byte>, fs: seq<seq<Byte>>, chunks: seq<seq<Byte>>)
    requires fs != [] && AllWellFormed(fs) && NoStart(r + gap)
    requires chunks != [] && |chunks[0]| > |gap|
    requires Flatten(chunks) == gap + Flatten(fs) && Fits(r, chunks)
    ensures BatchRun(r, chunks) == Parse(Skipped(r + gap) + Deliver(fs), [])
  {
    hide BatchDrain, Flatten;
    FlattenSplits(chunks, gap, Flatten(fs));
    var c, rest := chunks[0], chunks[1..];
    var s := c[|gap|..];
    assert r + c == (r + gap) + s;
    assert BatchRecv(r, c) == BatchDrain((r + gap) + s);
    AfterNoise(fs, r + gap, s, rest);
  }

  lemma AfterStale(later: seq<Piece>, pieces: seq<Piece>, fs: seq<seq<Byte>>)
    ensures Parse(later + Deliver(fs), []).After(pieces) == Parse((pieces + later) + Deliver(fs), [])
  {
    assert pieces + (later + Deliver(fs)) == (pieces + later) + Deliver(fs);
  }

  lemma FirstChunk(r: seq<Byte>, chunks: seq<seq<Byte>>)
    requires chunks != [] && Fits(r, chunks)
    ensures var p := BatchRecv(r, chunks[0]);
      && |r| + |chunks[0]| <= BUF_SIZE && Fits(p.rest, chunks[1..])
      && BatchRun(r, chunks) == BatchRun(p.rest, chunks[1..]).After(p.pieces)
  {
    hide BatchRecv;
  }

  lemma QuietParts(gap: seq<Byte>, k: nat)
    requires NoStart(gap) && k <= |gap|
    ensures NoStart(gap[..k]) && NoStart(gap[k..])
  {
  }

  /** After n quiet bytes, with a gap still to come that makes 63 in all. */
  lemma {:induction false} Recovers(r: seq<Byte>, n: nat, gap: seq<Byte>, fs: seq<seq<Byte>>, chunks: seq<seq<Byte>>)
    returns (stale: seq<Piece>)
    requires |r| < BUF_SIZE && QuietTail(r, n) && NoStart(gap) && n + |gap| >= 63
    requires fs != [] && AllWellFormed(fs)
    requires Flatten(chunks) == gap + Flatten(fs) && Fits(r, chunks)
    ensures BatchRun(r, chunks) == Parse(stale + Deliver(fs), [])
    ensures Bytes(stale) == r + gap
    decreases chunks
  {
    FramesNonEmpty(fs);
    assert chunks != [];
    FirstChunk(r, chunks);
    hide *;
    var c, rest := chunks[0], chunks[1..];
    FlattenSplits(chunks, gap, Flatten(fs));
    if |c| <= |gap| {
      var p := BatchRecv(r, c);
      BatchRecvCuts(r, c);
      QuietParts(gap, |c|);
      SuffixQuiet(r, n, c, p);
      var later := Recovers(p.rest, n + |c|, gap[|c|..], fs, rest);
      stale := p.pieces + later;
      StaleAppend(p, later, r, c, gap);
      AfterStale(later, p.pieces, fs);
    } else {
      RoomMeansQuiet(r, n, gap, c);
      StraddlingChunk(r, gap, fs, chunks);
      BytesSkipped(r + gap);
      stale := Skipped(r + gap);
    }
  }

  lemma StaleAppend(p: Parse, later: seq<Piece>, r: seq<Byte>, c: seq<Byte>, gap: seq<Byte>)
    requires CutFrom(p, r + c) && c <= gap && Bytes(later) == p.rest + gap[|c|..]
    ensures Bytes(p.pieces + later) == r + gap
  {
    BytesAppend(p.pieces, later);
    var cut, tail := Bytes(p.pieces), gap[|c|..];
    assert cut + p.rest == r + c;
    hide *;
    assert r + gap == (r + c) + tail;
    assert cut + (p.rest + tail) == (cut + p.rest) + tail;
  }

  /** From any buffer, 63 bytes without a start byte and then frames, in chunks that fit:
      every frame comes out exactly once, in order and last. */
  lemma BatchSelfStabilises(buf: seq<Byte>, gap: seq<Byte>, fs: seq<seq<Byte>>, chunks: seq<seq<Byte>>)
    returns (stale: seq<Piece>)
    requires |buf| < BUF_SIZE && NoStart(gap) && |gap| >= 63
    requires fs != [] && AllWellFormed(fs)
    requires Flatten(chunks) == gap + Flatten(fs) && Fits(buf, chunks)
    ensures BatchRun(buf, chunks) == Parse(stale + Deliver(fs), [])
    ensures Bytes(stale) == buf + gap
  {
    stale := Recovers(buf, 0, gap, fs, chunks);
  }

  // ----- no shorter gap will do

  /** A buffer the parser can be left with. */
  predicate Reachable(buf: seq<Byte>) {
    BatchDrain(buf) == Parse([], buf)
  }

  /** One byte longer than for the byte parser: a start byte that arrives in the chunk
      that shows the candidate before it to be impossible is thrown away with it. */
  lemma BatchShorterGapLosesFrame(n: nat)
    returns (buf: seq<Byte>, gap: seq<Byte>, f: seq<Byte>, chunks: seq<seq<Byte>>)
    requires n <= 62
    ensures Reachable(buf) && NoStart(gap) && |gap| == n && WellFormed(f)
    ensures |buf| < BUF_SIZE && Flatten(chunks) == gap + f && Fits(buf, chunks)
    ensures Frames(BatchRun(buf, chunks).pieces) == []
  {
    f := [START, CMD_DIRECTION_QUERY, 0, TAIL0, TAIL1];
    assert WellFormed(f);
    hide WellFormed, Fits, BatchRun, Frames, BatchDrain, Reachable, NoStart;
    buf, gap := LosingGap(n);
    chunks := [gap + [START], f[1..]];
    DropsAreNoFrames(BatchDrain(buf + (gap + [START])).pieces);
    assert Flatten(chunks[1..]) == f[1..] + [] && Flatten(chunks) == gap + f;
    LostAlone(buf, gap + [START], f[1..]);
  }

  lemma LosingGap(n: nat) returns (buf: seq<Byte>, gap: seq<Byte>)
    requires n <= 62
    ensures Reachable(buf) && NoStart(gap) && |gap| == n && |buf| + n == 63 && buf != []
    ensures var p := BatchDrain(buf + (gap + [START]));
      p.rest == [] && forall q :: q in p.pieces ==> q.Dropped?
  {
    hide BatchDrain;
    if n == 62 {
      buf, gap := [START], [0, 200] + seq(60, i => 0);
      ImpossibleLoses(buf + (gap + [START]));
    } else {
      var held := [START, START, 59, 200] + seq(59, i => 0);
      buf, gap := held[..63 - n], held[63 - n..];
      assert buf + (gap + [START]) == held + [START];
      TwiceImpossibleLoses(held + [START]);
    }
    WaitsForAll(buf);
  }

  lemma WaitsForAll(buf: seq<Byte>)
    requires buf != [] && buf[0] == START && (|buf| >= 3 ==> |buf| < FrameLen(buf) <= BUF_SIZE)
    ensures Reachable(buf)
  {
    assert FirstStart(buf) == 0 && buf[0..] == buf;
    assert [] + BatchAt(buf).pieces == BatchAt(buf).pieces;
  }

  lemma {:induction false} DropsAreNoFrames(ps: seq<Piece>)
    requires forall p :: p in ps ==> p.Dropped?
    ensures Frames(ps) == []
  {
    if ps != [] {
      assert ps[0] in ps;
      assert forall p :: p in ps[1..] ==> p in ps;
      DropsAreNoFrames(ps[1..]);
    }
  }

  lemma ImpossibleLoses(b: seq<Byte>)
    requires |b| >= 5 && b[0] == START && FrameLen(b) > BUF_SIZE
    ensures BatchDrain(b) == Parse([Dropped(b)], [])
  {
    assert FirstStart(b) == 0 && b[0..] == b;
  }

  lemma TwiceImpossibleLoses(b: seq<Byte>)
    requires |b| == 64 && b[0] == START && b[1] == START && b[2] == 59 && b[3] == 200 && b[62] == 0
    ensures BatchDrain(b) == Parse([Dropped(b[..1]), Dropped(b[1..])], [])
  {
    ImpossibleLoses(b[1..]);
    assert FirstStart(b) == 0 && b[0..] == b;
    assert FrameLen(b) == 64 && !GoodTail(b, 64);
    assert [Dropped(b[..1])] + [Dropped(b[1..])] == [Dropped(b[..1]), Dropped(b[1..])];
  }

  lemma LostAlone(buf: seq<Byte>, first: seq<Byte>, second: seq<Byte>)
    requires first != [] && |buf| + |first| <= BUF_SIZE && 0 < |second| < 5
    requires BatchDrain(buf + first).rest == [] && Frames(BatchDrain(buf + first).pieces) == []
    ensures Fits(buf, [first, second])
    ensures Frames(BatchRun(buf, [first, second]).pieces) == []
  {
    var chunks, p := [first, second], BatchDrain(buf + first);
    assert [] + second == second && BatchDrain(second) == Parse([], second);
    assert chunks[1..] == [second] && [second][1..] == [];
    hide BatchDrain, Frames;
    assert BatchRun(second, []) == Parse([], second) && Fits(second, []);
    OneChunk([], second, []);
    OneChunk(buf, first, [second]);
    assert [second] + [] == [second] && [first] + [second] == chunks;
    assert p.pieces + [] == p.pieces;
  }

  lemma OneChunk(buf: seq<Byte>, c: seq<Byte>, rest: seq<seq<Byte>>)
    requires c != [] && |buf| + |c| <= BUF_SIZE
    ensures var p := BatchDrain(buf + c);
      && BatchRun(buf, [c] + rest) == BatchRun(p.rest, rest).After(p.pieces)
      && (Fits(p.rest, rest) ==> Fits(buf, [c] + rest))
  {
    var chunks := [c] + rest;
    assert chunks[0] == c && chunks[1..] == rest;
    hide BatchDrain;
    assert BatchRecv(buf, c) == BatchDrain(buf + c);
  }

  ghost predicate BatchDelivered(buf: seq<Byte>, gap: seq<Byte>, fs: seq<seq<Byte>>, chunks: seq<seq<Byte>>) {
    exists stale: seq<Piece> ::
      BatchRun(buf, chunks) == Parse(stale + Deliver(fs), []) && Bytes(stale) == buf + gap
  }

  /** For chunks that fit, recovery from every buffer the parser can be left with is sure
      exactly for gaps of 63 bytes or more. */
  lemma BatchGapSufficesIff(n: nat)
    ensures (forall buf, gap, fs, chunks ::
               Reachable(buf) && |buf| < BUF_SIZE && NoStart(gap) && |gap| == n && fs != [] && AllWellFormed(fs)
               && Flatten(chunks) == gap + Flatten(fs) && Fits(buf, chunks)
               ==> BatchDelivered(buf, gap, fs, chunks))
       <==> n >= 63
  {
    hide BatchRun, Fits, WellFormed, Flatten, NoStart;
    if n >= 63 {
      forall buf, gap, fs, chunks |
        Reachable(buf) && |buf| < BUF_SIZE && NoStart(gap) && |gap| == n && fs != [] && AllWellFormed(fs)
        && Flatten(chunks) == gap + Flatten(fs) && Fits(buf, chunks)
        ensures BatchDelivered(buf, gap, fs, chunks)
      {
        var stale := BatchSelfStabilises(buf, gap, fs, chunks);
      }
    } else {
      var buf, gap, f, chunks := BatchShorterGapLosesFrame(n);
      FramesAlone(f);
      NoneDelivered(buf, gap, f, chunks);
    }
  }

  lemma FramesAlone(f: seq<Byte>)
    requires WellFormed(f)
    ensures AllWellFormed([f]) && Flatten([f]) == f
  {
  }

  lemma NoneDelivered(buf: seq<Byte>, gap: seq<Byte>, f: seq<Byte>, chunks: seq<seq<Byte>>)
    requires Frames(BatchRun(buf, chunks).pieces) == []
    ensures !BatchDelivered(buf, gap, [f], chunks)
  {
    hide BatchRun;
    forall stale: seq<Piece> ensures Frames(stale + Deliver([f])) != [] {
      FramesAppend(stale, Deliver([f]));
      FramesDeliver([f]);
    }
  }
}

// The chunk-at-a-time receive path of the 20260630 AIOS driver on sequences, and its
// relation to the byte-at-a-time parser it replaced.

module AiosBatchParser {
  import opened AiosFrame
  import opened AiosByteParser
  import opened AiosSync

  /** Index of the first start byte, or the length if there is none. */
  function FirstStart(buf: seq<Byte>): (i: nat)
    ensures i <= |buf|
    ensures forall j :: 0 <= j < i ==> buf[j] != START
    ensures i < |buf| ==> buf[i] == START
  {
    if buf == [] || buf[0] == START then 0 else 1 + FirstStart(buf[1..])
  }

  function SkipTo(buf: seq<Byte>, i: nat): seq<Piece>
    requires i <= |buf|
  {
    if i == 0 then [] else [Dropped(buf[..i])]
  }

  /** The framing loop of the batch driver: while five bytes are held, move to the first
      start byte and look at the candidate frame there. */
  function BatchDrain(buf: seq<Byte>): Parse
    decreases |buf|, 1
  {
    if |buf| < 5 then Parse([], buf)
    else
      var i := FirstStart(buf);
      if i == |buf| then Parse([Dropped(buf)], [])
      else BatchAt(buf[i..]).After(SkipTo(buf, i))
  }

  function BatchAt(b: seq<Byte>): Parse
    decreases |b|, 0
  {
    if |b| < 5 then Parse([], b)
    else if FrameLen(b) > BUF_SIZE then Parse([Dropped(b)], [])
    else if |b| < FrameLen(b) then Parse([], b)
    else if !GoodTail(b, FrameLen(b)) then BatchDrain(b[1..]).After([Dropped(b[..1])])
    else BatchDrain(b[FrameLen(b)..]).After([Framed(b[..FrameLen(b)])])
  }

  predicate Overflows(buf: seq<Byte>, chunk: seq<Byte>) {
    |buf| + |chunk| > BUF_SIZE
  }

  function BatchRecv(buf: seq<Byte>, chunk: seq<Byte>): Parse {
    if chunk == [] then Parse([], buf)
    else if Overflows(buf, chunk) then Parse([Dropped(buf + chunk)], [])
    else BatchDrain(buf + chunk)
  }

  function BatchRun(buf: seq<Byte>, chunks: seq<seq<Byte>>): Parse
    decreases chunks
  {
    if chunks == [] then Parse([], buf)
    else
      var p := BatchRecv(buf, chunks[0]);
      BatchRun(p.rest, chunks[1..]).After(p.pieces)
  }

  /** No chunk of the run is larger than the room its residue leaves in the buffer. */
  predicate Fits(buf: seq<Byte>, chunks: seq<seq<Byte>>)
    decreases chunks
  {
    chunks == [] ||
    (!Overflows(buf, chunks[0]) && Fits(BatchRecv(buf, chunks[0]).rest, chunks[1..]))
  }

  // ----- conservation

  lemma {:induction false} BatchDrainCuts(buf: seq<Byte>)
    ensures CutFrom(BatchDrain(buf), buf)
    ensures |buf| <= BUF_SIZE ==> |BatchDrain(buf).rest| < BUF_SIZE
    decreases |buf|, 1
  {
    if |buf| >= 5 {
      var i := FirstStart(buf);
      if i == |buf| {
        CutAll(buf);
      } else {
        BatchAtCuts(buf[i..]);
        if i == 0 {
          assert buf[0..] == buf;
          CutNone(BatchAt(buf), buf);
        } else {
          CutAfter(BatchAt(buf[i..]), Dropped(buf[..i]), buf);
        }
      }
    }
  }

  lemma {:induction false} BatchAtCuts(b: seq<Byte>)
    requires b != [] && b[0] == START
    ensures CutFrom(BatchAt(b), b)
    ensures |b| <= BUF_SIZE ==> |BatchAt(b).rest| < BUF_SIZE
    decreases |b|, 0
  {
    if |b| >= 5 {
      var n := FrameLen(b);
      if n > BUF_SIZE {
        CutAll(b);
      } else if n <= |b| && GoodTail(b, n) {
        BatchDrainCuts(b[n..]);
        CutAfter(BatchDrain(b[n..]), Framed(b[..n]), b);
      } else if n <= |b| {
        BatchDrainCuts(b[1..]);
        CutAfter(BatchDrain(b[1..]), Dropped(b[..1]), b);
      }
    }
  }

  lemma BatchRecvCuts(buf: seq<Byte>, chunk: seq<Byte>)
    requires |buf| < BUF_SIZE
    ensures CutFrom(BatchRecv(buf, chunk), buf + chunk)
    ensures |BatchRecv(buf, chunk).rest| < BUF_SIZE
  {
    if chunk == [] {
      assert buf + chunk == buf;
    } else if Overflows(buf, chunk) {
      CutAll(buf + chunk);
    } else {
      BatchDrainCuts(buf + chunk);
    }
  }

  /** The batch parser too accounts for every byte, overflow included. */
  lemma {:induction false} BatchRunCuts(buf: seq<Byte>, chunks: seq<seq<Byte>>)
    requires |buf| < BUF_SIZE
    ensures CutFrom(BatchRun(buf, chunks), buf + Flatten(chunks))
    ensures |BatchRun(buf, chunks).rest| < BUF_SIZE
    decreases chunks
  {
    hide BatchRecv, CutFrom;
    if chunks == [] {
      CutNothing(buf);
    } else {
      var p := BatchRecv(buf, chunks[0]);
      BatchRecvCuts(buf, chunks[0]);
      BatchRunCuts(p.rest, chunks[1..]);
      CutAppend(p, buf, chunks[0], BatchRun(p.rest, chunks[1..]), Flatten(chunks[1..]));
    }
  }

  // ----- streams of frames

  /** The ideal parse of `s`, a prefix of the stream made of the frames `fs`: the frames
      that are complete in it and the beginning of the next one. */
  function Ideal(fs: seq<seq<Byte>>, s: seq<Byte>): Parse {
    if fs == [] || |s| < |fs[0]| then Parse([], s)
    else Ideal(fs[1..], s[|fs[0]|..]).After([Framed(fs[0])])
  }

  lemma {:induction false} IdealWhole(fs: seq<seq<Byte>>)
    ensures Ideal(fs, Flatten(fs)) == Parse(Deliver(fs), [])
  {
    if fs != [] {
      assert Flatten(fs)[|fs[0]|..] == Flatten(fs[1..]);
      IdealWhole(fs[1..]);
      DeliverCons(fs);
    }
  }

  lemma PrefixTail(fs: seq<seq<Byte>>, s: seq<Byte>)
    requires fs != [] && s <= Flatten(fs) && |fs[0]| <= |s|
    ensures s == fs[0] + s[|fs[0]|..]
    ensures s[|fs[0]|..] <= Flatten(fs[1..])
  {
  }

  /** The beginning of a well-formed frame is something the parsers wait for. */
  lemma BeginningUnfinished(f: seq<Byte>, s: seq<Byte>)
    requires WellFormed(f) && s < f
    ensures Unfinished(s)
  {
  }

  lemma {:induction false} ByteParserIdeal(fs: seq<seq<Byte>>, s: seq<Byte>)
    requires AllWellFormed(fs) && s <= Flatten(fs)
    ensures FeedAll([], s) == Ideal(fs, s)
  {
    if fs == [] {
      assert s == [];
    } else if |s| < |fs[0]| {
      assert s == Flatten(fs)[..|s|] == fs[0][..|s|];
      BeginningUnfinished(fs[0], s);
      assert [] + s == s;
      UnfinishedIsHeld([], s);
    } else {
      PrefixTail(fs, s);
      TailWellFormed(fs);
      assert [] + fs[0] == fs[0];
      FrameCompletes([], fs[0]);
      FeedAllAppend([], fs[0], s[|fs[0]|..]);
      ByteParserIdeal(fs[1..], s[|fs[0]|..]);
    }
  }

  lemma BatchWaits(s: seq<Byte>)
    requires Unfinished(s)
    ensures BatchDrain(s) == Parse([], s)
  {
  }

  lemma BatchTakesFrame(f: seq<Byte>, s: seq<Byte>)
    requires WellFormed(f)
    ensures BatchDrain(f + s) == BatchDrain(s).After([Framed(f)])
  {
    var b := f + s;
    assert FirstStart(b) == 0 && b[0..] == b;
    assert b[..|f|] == f && b[|f|..] == s;
    assert FrameLen(b) == FrameLen(f) == |f|;
    assert BatchAt(b) == BatchDrain(s).After([Framed(f)]);
    assert [] + BatchAt(b).pieces == BatchAt(b).pieces;
  }

  lemma {:induction false} BatchDrainIdeal(fs: seq<seq<Byte>>, s: seq<Byte>)
    requires AllWellFormed(fs) && s <= Flatten(fs)
    ensures BatchDrain(s) == Ideal(fs, s)
  {
    if fs == [] {
      assert s == [];
    } else if |s| < |fs[0]| {
      assert s == Flatten(fs)[..|s|] == fs[0][..|s|];
      BeginningUnfinished(fs[0], s);
      BatchWaits(s);
    } else {
      PrefixTail(fs, s);
      TailWellFormed(fs);
      BatchTakesFrame(fs[0], s[|fs[0]|..]);
      BatchDrainIdeal(fs[1..], s[|fs[0]|..]);
    }
  }

  /** Parsing ideally in two instalments. */
  lemma {:induction false} IdealResumes(fs: seq<seq<Byte>>, s: seq<Byte>, t: seq<Byte>)
    returns (left: seq<seq<Byte>>)
    requires AllWellFormed(fs) && s + t <= Flatten(fs)
    ensures AllWellFormed(left)
    ensures var p := Ideal(fs, s);
      && p.rest + t <= Flatten(left)
      && (left != [] ==> |p.rest| < |left[0]|)
      && (left == [] ==> p.rest == [])
      && Ideal(fs, s + t) == Ideal(left, p.rest + t).After(p.pieces)
  {
    if fs == [] {
      left := fs;
      assert s == [];
    } else if |s| < |fs[0]| {
      left := fs;
      assert Ideal(fs, s + t).After([]) == Ideal(fs, s + t);
    } else {
      var n := |fs[0]|;
      PrefixTail(fs, s + t);
      assert (s + t)[n..] == s[n..] + t;
      TailWellFormed(fs);
      left := IdealResumes(fs[1..], s[n..], t);
      var p := Ideal(fs[1..], s[n..]);
      var q := Ideal(left, p.rest + t);
      assert [Framed(fs[0])] + (p.pieces + q.pieces) == ([Framed(fs[0])] + p.pieces) + q.pieces;
    }
  }

  lemma {:induction false} BatchRunIdeal(fs: seq<seq<Byte>>, buf: seq<Byte>, chunks: seq<seq<Byte>>)
    requires AllWellFormed(fs) && buf + Flatten(chunks) <= Flatten(fs)
    requires fs == [] || |buf| < |fs[0]|
    requires Fits(buf, chunks)
    ensures BatchRun(buf, chunks) == Ideal(fs, buf + Flatten(chunks))
    decreases chunks
  {
    if chunks == [] {
      assert buf + [] == buf;
    } else {
      var c, t := chunks[0], Flatten(chunks[1..]);
      assert buf + Flatten(chunks) == (buf + c) + t;
      var left := IdealResumes(fs, buf + c, t);
      assert buf + c <= Flatten(fs) by {
        assert buf + c == ((buf + c) + t)[..|buf + c|];
      }
      var p := BatchRecv(buf, c);
      BatchRecvIdeal(fs, buf, c);
      BatchRunIdeal(left, p.rest, chunks[1..]);
    }
  }

  lemma BatchRecvIdeal(fs: seq<seq<Byte>>, buf: seq<Byte>, c: seq<Byte>)
    requires AllWellFormed(fs) && buf + c <= Flatten(fs)
    requires fs == [] || |buf| < |fs[0]|
    requires !Overflows(buf, c)
    ensures BatchRecv(buf, c) == Ideal(fs, buf + c)
  {
    if c == [] {
      assert buf + c == buf;
    } else {
      BatchDrainIdeal(fs, buf + c);
    }
  }

  /** Refinement: on any prefix of a stream of well-formed frames, however it is chunked,
      the batch parser agrees with the byte parser piece for piece and holds the same
      residue, as long as every chunk fits beside the residue before it. */
  lemma BatchAgreesWithBytes(fs: seq<seq<Byte>>, chunks: seq<seq<Byte>>)
    requires AllWellFormed(fs) && Flatten(chunks) <= Flatten(fs)
    requires Fits([], chunks)
    ensures BatchRun([], chunks) == FeedChunks([], chunks)
  {
    assert [] + Flatten(chunks) == Flatten(chunks);
    if fs != [] {
      assert WellFormed(fs[0]);
    }
    BatchRunIdeal(fs, [], chunks);
    ByteParserIdeal(fs, Flatten(chunks));
    ChunkingIrrelevant([], chunks);
  }

  // ----- exactly when the batch parser is lossless

  lemma {:induction false} OverflowDrops(buf: seq<Byte>, chunks: seq<seq<Byte>>)
    requires |buf| < BUF_SIZE && !Fits(buf, chunks)
    ensures DroppedCount(BatchRun(buf, chunks).pieces) > 0
    decreases chunks
  {
    var p := BatchRecv(buf, chunks[0]);
    DroppedAppend(p.pieces, BatchRun(p.rest, chunks[1..]).pieces);
    if Overflows(buf, chunks[0]) {
      assert DroppedCount(p.pieces) == |buf + chunks[0]| + DroppedCount([]);
    } else {
      BatchRecvCuts(buf, chunks[0]);
      OverflowDrops(p.rest, chunks[1..]);
    }
  }

  lemma {:induction false} DroppedAppend(p: seq<Piece>, q: seq<Piece>)
    ensures DroppedCount(p + q) == DroppedCount(p) + DroppedCount(q)
  {
    if p == [] {
      assert p + q == q;
    } else {
      assert (p + q)[1..] == p[1..] + q;
      DroppedAppend(p[1..], q);
    }
  }

  /** Frames sent back to back come out of the batch parser intact if and only if every
      chunk fits beside the residue of the chunks before it. */
  lemma BatchRoundTripIff(fs: seq<seq<Byte>>, chunks: seq<seq<Byte>>)
    requires AllWellFormed(fs) && Flatten(chunks) == Flatten(fs)
    ensures Frames(BatchRun([], chunks).pieces) == fs <==> Fits([], chunks)
  {
    if Fits([], chunks) {
      BatchAgreesWithBytes(fs, chunks);
      RoundTrip(fs, chunks);
    } else {
      var p := BatchRun([], chunks);
      OverflowDrops([], chunks);
      BatchRunCuts([], chunks);
      PieceCount(p.pieces);
      assert |Bytes(p.pieces)| + |p.rest| == |[] + Flatten(fs)|;
    }
  }
}

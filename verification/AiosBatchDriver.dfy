// The 20260630 AIOS driver: chunks are appended to a 64-byte buffer which is then
// compacted in place; a frame updates the cache and wakes the waiter unconditionally.

module AiosBatchDriver {
  import opened AiosFrame
  import opened AiosByteParser
  import opened AiosBatchParser
  import opened AiosCache

  class BatchPort {
    const ngpios: nat
    const frameBuffer: array<Byte>
    var frameLen: nat
    const rxBuffer: array<Byte>
    var rxLen: nat
    var done: nat
    const gpioValues: array<Byte>
    const gpioDirections: array<Byte>
    ghost var log: seq<Event>

    predicate Shape()
      reads this
    {
      && ngpios <= MAX_LINES && frameLen <= BUF_SIZE && rxLen <= BUF_SIZE
      && frameBuffer.Length == rxBuffer.Length == BUF_SIZE
      && gpioValues.Length == gpioDirections.Length == MAX_LINES
      && frameBuffer != rxBuffer && frameBuffer != gpioValues && frameBuffer != gpioDirections
      && rxBuffer != gpioValues && rxBuffer != gpioDirections && gpioValues != gpioDirections
    }

    ghost predicate Valid()
      reads this, gpioValues, gpioDirections
    {
      Shape() && frameLen < BUF_SIZE
      && Replays(ExactlyTwo, ngpios, log, gpioValues[..], gpioDirections[..])
    }

    ghost function Buffered(): seq<Byte>
      requires frameBuffer.Length == BUF_SIZE && frameLen <= BUF_SIZE
      reads this, frameBuffer
    {
      frameBuffer[..frameLen]
    }

    constructor (ngpios: nat)
      requires ngpios <= MAX_LINES
      ensures Valid() && fresh(frameBuffer) && fresh(rxBuffer)
      ensures fresh(gpioValues) && fresh(gpioDirections)
      ensures this.ngpios == ngpios && Buffered() == [] && log == [] && done == 0
    {
      this.ngpios := ngpios;
      frameBuffer := new Byte[BUF_SIZE](i => 0);
      rxBuffer := new Byte[BUF_SIZE](i => 0);
      gpioValues := new Byte[MAX_LINES](i => 0);
      gpioDirections := new Byte[MAX_LINES](i => 0);
      frameLen, rxLen, done := 0, 0, 0;
      log := [];
    }

    method Discard(n: nat)
      requires Shape() && n <= frameLen
      modifies this`frameLen, frameBuffer
      ensures frameLen == old(frameLen) - n
      ensures Buffered() == old(Buffered())[n..]
    {
      forall i | 0 <= i < frameLen - n {
        frameBuffer[i] := frameBuffer[i + n];
      }
      frameLen := frameLen - n;
    }

    method UpdateCache(cmd: Byte, dataLen: Byte)
      requires Shape() && dataLen <= 59
      requires WellFormed(rxBuffer[..dataLen as int + 5]) && cmd == rxBuffer[1] && dataLen == rxBuffer[2]
      requires Replays(ExactlyTwo, ngpios, log, gpioValues[..], gpioDirections[..])
      modifies this`log, gpioValues, gpioDirections
      ensures log == old(log) + [Parsed(rxBuffer[..dataLen as int + 5])]
      ensures Replays(ExactlyTwo, ngpios, log, gpioValues[..], gpioDirections[..])
    {
      ghost var f := rxBuffer[..dataLen as int + 5];
      ReplayFrame(ExactlyTwo, log, f);
      log := log + [Parsed(f)];
      if dataLen == 2 {
        var offset := rxBuffer[3];
        if cmd == CMD_DIRECTION_QUERY {
          if offset < ngpios {
            gpioDirections[offset] := rxBuffer[4];
          }
        } else if cmd == CMD_READ {
          if offset < ngpios {
            gpioValues[offset] := rxBuffer[4];
          }
        } else if cmd == CMD_OUTPUT {
          if offset < ngpios {
            gpioValues[offset] := rxBuffer[4];
          }
        }
      }
    }

    /** A complete frame: remember it, update the cache, wake the waiter. */
    method HandleFrame(n: nat)
      requires Shape() && 5 <= n <= frameLen && WellFormed(Buffered()[..n])
      requires Replays(ExactlyTwo, ngpios, log, gpioValues[..], gpioDirections[..])
      modifies this`rxLen, this`done, this`log, rxBuffer, gpioValues, gpioDirections
      ensures Shape() && rxLen == n && rxBuffer[..n] == Buffered()[..n]
      ensures done == old(done) + 1
      ensures log == old(log) + [Parsed(Buffered()[..n])]
      ensures Replays(ExactlyTwo, ngpios, log, gpioValues[..], gpioDirections[..])
    {
      ghost var f := Buffered()[..n];
      forall i | 0 <= i < n {
        rxBuffer[i] := frameBuffer[i];
      }
      assert rxBuffer[..n] == f;
      rxLen := n;
      UpdateCache(rxBuffer[1], rxBuffer[2]);
      done := done + 1;
    }

    method FindStart() returns (i: nat)
      requires Shape()
      ensures i == FirstStart(Buffered())
    {
      ghost var buf := Buffered();
      i := 0;
      assert buf[0..] == buf;
      while i < frameLen
        invariant i <= frameLen
        invariant FirstStart(buf) == i + FirstStart(buf[i..])
      {
        if frameBuffer[i] == START {
          return;
        }
        assert buf[i..][1..] == buf[i + 1..];
        i := i + 1;
      }
      assert buf[frameLen..] == [];
    }

    /** The candidate frame at the front of the buffer. */
    method Candidate() returns (again: bool, ghost cut: seq<Piece>)
      requires Shape() && frameLen > 0 && Buffered()[0] == START
      requires Replays(ExactlyTwo, ngpios, log, gpioValues[..], gpioDirections[..])
      modifies this`frameLen, this`rxLen, this`done, this`log
      modifies frameBuffer, rxBuffer, gpioValues, gpioDirections
      ensures Shape() && frameLen <= old(frameLen) && (again ==> frameLen < old(frameLen))
      ensures BatchAt(old(Buffered()))
           == (if again then BatchDrain(Buffered()) else Parse([], Buffered())).After(cut)
      ensures log == old(log) + ParsedLog(Frames(cut)) && done == old(done) + |Frames(cut)|
      ensures Frames(cut) != [] ==> rxBuffer[..rxLen] == Frames(cut)[|Frames(cut)| - 1]
      ensures Replays(ExactlyTwo, ngpios, log, gpioValues[..], gpioDirections[..])
    {
      ghost var buf := Buffered();
      CandidateCases(buf, log);
      hide BatchAt, BatchDrain, Frames, Replays;
      if frameLen < 5 {
        return false, [];
      }
      var n := frameBuffer[2] as int + 5;
      if n > BUF_SIZE {
        frameLen := 0;
        return false, [Dropped(buf)];
      }
      if frameLen < n {
        return false, [];
      }
      if frameBuffer[n - 2] != TAIL0 || frameBuffer[n - 1] != TAIL1 {
        Discard(1);
        return true, [Dropped(buf[..1])];
      }
      HandleFrame(n);
      Discard(n);
      return true, [Framed(buf[..n])];
    }

    lemma CandidateCases(b: seq<Byte>, log: seq<Event>)
      requires 0 < |b| <= BUF_SIZE && b[0] == START
      ensures Frames([]) == [] && log + ParsedLog([]) == log
      ensures
        if |b| < 5 || (FrameLen(b) <= BUF_SIZE && |b| < FrameLen(b)) then
          BatchAt(b) == Parse([], b).After([])
        else if FrameLen(b) > BUF_SIZE then
          && BatchAt(b) == Parse([], []).After([Dropped(b)])
          && Frames([Dropped(b)]) == []
        else if !GoodTail(b, FrameLen(b)) then
          && BatchAt(b) == BatchDrain(b[1..]).After([Dropped(b[..1])])
          && Frames([Dropped(b[..1])]) == []
        else
          var f := b[..FrameLen(b)];
          && WellFormed(f)
          && BatchAt(b) == BatchDrain(b[|f|..]).After([Framed(f)])
          && Frames([Framed(f)]) == [f]
    {
    }

    method Append(data: seq<Byte>)
      requires Shape() && frameLen + |data| <= BUF_SIZE
      modifies this`frameLen, frameBuffer
      ensures frameLen == old(frameLen) + |data| && Buffered() == old(Buffered()) + data
    {
      forall i | 0 <= i < |data| {
        frameBuffer[frameLen + i] := data[i];
      }
      frameLen := frameLen + |data|;
    }

    /** The receive callback: the chunk is consumed whole, even when it is thrown away. */
    method Recv(data: seq<Byte>) returns (processed: nat)
      requires Valid()
      modifies this`frameLen, this`rxLen, this`done, this`log
      modifies frameBuffer, rxBuffer, gpioValues, gpioDirections
      ensures Valid() && processed == |data|
      ensures var p := BatchRecv(old(Buffered()), data);
        && Buffered() == p.rest
        && log == old(log) + ParsedLog(Frames(p.pieces))
        && done == old(done) + |Frames(p.pieces)|
    {
      processed := |data|;
      ghost var old_ := Buffered();
      BatchRecvCuts(old_, data);
      hide Replays, BatchDrain, Frames, ParsedLog, CutFrom;
      NothingLogged();
      NothingParsed(old_ + data);
      if |data| == 0 {
        return;
      }
      var copy := if |data| < BUF_SIZE - frameLen then |data| else BUF_SIZE - frameLen;
      Append(data[..copy]);
      if copy < |data| {
        frameLen := 0;
        return;
      }
      assert data[..copy] == data;
      var pieces := Loop();
    }

    method Loop() returns (ghost pieces: seq<Piece>)
      requires Shape()
      requires Replays(ExactlyTwo, ngpios, log, gpioValues[..], gpioDirections[..])
      modifies this`frameLen, this`rxLen, this`done, this`log
      modifies frameBuffer, rxBuffer, gpioValues, gpioDirections
      ensures Shape() && Parse(pieces, Buffered()) == BatchDrain(old(Buffered()))
      ensures log == old(log) + ParsedLog(Frames(pieces)) && done == old(done) + |Frames(pieces)|
      ensures Replays(ExactlyTwo, ngpios, log, gpioValues[..], gpioDirections[..])
    {
      pieces := [];
      hide Replays, BatchDrain, Frames, ParsedLog;
      ghost var start := BatchDrain(Buffered());
      assert Frames([]) == [] && ParsedLog([]) == [] by {
        NothingLogged();
      }
      var again := true;
      assert start.After([]) == start && log + ParsedLog([]) == log;
      while again && frameLen >= 5
        invariant Shape()
        invariant (if again then BatchDrain(Buffered()) else Parse([], Buffered())).After(pieces) == start
        invariant log == old(log) + ParsedLog(Frames(pieces)) && done == old(done) + |Frames(pieces)|
        invariant Replays(ExactlyTwo, ngpios, log, gpioValues[..], gpioDirections[..])
        decreases again, frameLen
      {
        ghost var cut;
        again, cut := Round();
        AfterAfter(if again then BatchDrain(Buffered()) else Parse([], Buffered()), pieces, cut);
        FramesAppend(pieces, cut);
        ParsedLogAppend(Frames(pieces), Frames(cut));
        pieces := pieces + cut;
      }
      assert pieces + [] == pieces;
      if frameLen < 5 {
        TooShort(Buffered());
      }
    }

    /** One round of the loop: move to the first start byte and try the frame there. */
    method Round() returns (again: bool, ghost cut: seq<Piece>)
      requires Shape() && frameLen >= 5
      requires Replays(ExactlyTwo, ngpios, log, gpioValues[..], gpioDirections[..])
      modifies this`frameLen, this`rxLen, this`done, this`log
      modifies frameBuffer, rxBuffer, gpioValues, gpioDirections
      ensures Shape() && frameLen <= old(frameLen) && (again ==> frameLen < old(frameLen))
      ensures BatchDrain(old(Buffered()))
           == (if again then BatchDrain(Buffered()) else Parse([], Buffered())).After(cut)
      ensures log == old(log) + ParsedLog(Frames(cut)) && done == old(done) + |Frames(cut)|
      ensures Replays(ExactlyTwo, ngpios, log, gpioValues[..], gpioDirections[..])
    {
      ghost var buf := Buffered();
      var start := FindStart();
      assert log + ParsedLog([]) == log;
      if start == frameLen {
        frameLen := 0;
        assert Frames([Dropped(buf)]) == Frames([]);
        return false, [Dropped(buf)];
      }
      ghost var skip := SkipTo(buf, start);
      assert Frames(skip) == [];
      if start > 0 {
        Discard(start);
      }
      assert Buffered() == buf[start..];
      again, cut := Candidate();
      hide Frames, Replays, BatchAt, SkipTo;
      AfterAfter(if again then BatchDrain(Buffered()) else Parse([], Buffered()), skip, cut);
      FramesAppend(skip, cut);
      assert [] + Frames(cut) == Frames(cut);
      cut := skip + cut;
    }
  }

  lemma TooShort(b: seq<Byte>)
    requires |b| < 5
    ensures BatchDrain(b) == Parse([], b)
  {
  }

  lemma NothingLogged()
    ensures Frames([]) == [] && ParsedLog([]) == []
  {
  }

  lemma NothingParsed(bytes: seq<Byte>)
    ensures Frames([Dropped(bytes)]) == []
  {
    assert [Dropped(bytes)][1..] == [];
  }
}

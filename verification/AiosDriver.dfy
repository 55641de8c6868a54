// The 20260124 AIOS driver: the receive callback over its fixed buffers, the
// request/response transaction, and the cached line state.

module AiosDriver {
  import opened AiosFrame
  import opened AiosByteParser
  import opened AiosSync
  import opened AiosCache

  const EAGAIN: int := 11
  const ENODEV: int := 19
  const ETIMEDOUT: int := 110

  // ----- what a request expects

  function TxCmd(data: seq<Byte>): Byte {
    if |data| >= 3 && data[0] == 0x55 && data[1] == START then data[2]
    else if |data| >= 2 && data[0] == START then data[1]
    else 0
  }

  predicate TxHasOffset(cmd: Byte) {
    cmd in {CMD_DIRECTION_QUERY, CMD_READ, CMD_OUTPUT}
  }

  function TxOffset(data: seq<Byte>): Byte {
    if TxHasOffset(TxCmd(data)) && |data| >= 4 && data[0] == START then data[3] else 0
  }

  datatype Expectation = Expectation(cmd: Byte, offset: Byte, hasOffset: bool)

  function ExpectationOf(data: seq<Byte>): Expectation {
    Expectation(TxCmd(data), TxOffset(data), TxHasOffset(TxCmd(data)))
  }

  /** Does this frame end the pending transaction? */
  predicate Answers(e: Expectation, f: seq<Byte>)
    requires WellFormed(f)
  {
    f[1] == CMD_ERROR ||
    (f[1] == e.cmd &&
     (f[1] in {CMD_INIT, CMD_CONFIG} ||
      (TxHasOffset(f[1]) && e.hasOffset && f[2] >= 1 && f[3] == e.offset)))
  }

  function AnswerCount(e: Expectation, fs: seq<seq<Byte>>): nat
    requires AllWellFormed(fs)
  {
    if fs == [] then 0
    else AnswerCount(e, fs[..|fs| - 1]) + (if Answers(e, fs[|fs| - 1]) then 1 else 0)
  }

  lemma {:induction false} AnswerCountPositive(e: Expectation, fs: seq<seq<Byte>>)
    requires AllWellFormed(fs)
    ensures AnswerCount(e, fs) > 0 <==> exists i :: 0 <= i < |fs| && Answers(e, fs[i])
  {
    if fs != [] {
      var init := fs[..|fs| - 1];
      AnswerCountPositive(e, init);
      if i :| 0 <= i < |fs| && Answers(e, fs[i]) {
        assert i < |fs| - 1 ==> init[i] == fs[i];
      }
      if AnswerCount(e, init) > 0 {
        var i :| 0 <= i < |init| && Answers(e, init[i]);
        assert fs[i] == init[i];
      }
    }
  }

  /** What the driver has heard: the frames and settings logged, the answers signalled
      to the waiter, the last frame, and whether that one was an answer. */
  datatype Heard = Heard(log: seq<Event>, done: nat, rx: seq<Byte>, valid: bool)

  function Hear(e: Expectation, h: Heard, f: seq<Byte>): Heard
    requires WellFormed(f)
  {
    Heard(h.log + [Parsed(f)], h.done + (if Answers(e, f) then 1 else 0), f, Answers(e, f))
  }

  function HearAll(e: Expectation, h: Heard, fs: seq<seq<Byte>>): Heard
    requires AllWellFormed(fs)
  {
    if fs == [] then h else Hear(e, HearAll(e, h, fs[..|fs| - 1]), fs[|fs| - 1])
  }

  lemma {:induction false} HearAllAppend(e: Expectation, h: Heard, fs: seq<seq<Byte>>, gs: seq<seq<Byte>>)
    requires AllWellFormed(fs) && AllWellFormed(gs)
    ensures AllWellFormed(fs + gs)
    ensures HearAll(e, h, fs + gs) == HearAll(e, HearAll(e, h, fs), gs)
  {
    if gs == [] {
      assert fs + gs == fs;
    } else {
      var n := |gs| - 1;
      HearAllAppend(e, h, fs, gs[..n]);
      assert (fs + gs)[..|fs + gs| - 1] == fs + gs[..n];
    }
  }

  /** The cases of one round of the framing loop. */
  lemma DrainRound(buf: seq<Byte>, e: Expectation, h: Heard)
    requires 3 <= |buf| <= BUF_SIZE
    ensures AllWellFormed(Frames([])) && HearAll(e, h, Frames([])) == h
    ensures var n, skip := FrameLen(buf), [Dropped(buf[..1])];
      if buf[0] != START || (n <= |buf| && !GoodTail(buf, n)) then
        && Drain(buf) == Drain(buf[1..]).After(skip)
        && AllWellFormed(Frames(skip)) && HearAll(e, h, Frames(skip)) == h
      else if n > BUF_SIZE then
        && Drain(buf) == Parse([], []).After([Dropped(buf)])
        && AllWellFormed(Frames([Dropped(buf)])) && HearAll(e, h, Frames([Dropped(buf)])) == h
      else if |buf| < n then Drain(buf) == Parse([], buf).After([])
      else
        var f := buf[..n];
        && WellFormed(f)
        && Drain(buf) == Drain(buf[n..]).After([Framed(f)])
        && AllWellFormed(Frames([Framed(f)])) && HearAll(e, h, Frames([Framed(f)])) == Hear(e, h, f)
  {
  }

  /** Every frame is logged, but only those that answer the pending request signal the
      waiter; the reply buffer keeps the last frame, answer or not, and whether the reply
      is valid is decided by that frame alone. */
  lemma {:induction false} HearAllMeans(e: Expectation, h: Heard, fs: seq<seq<Byte>>)
    requires AllWellFormed(fs)
    ensures var r := HearAll(e, h, fs);
      && r.log == h.log + ParsedLog(fs)
      && r.done == h.done + AnswerCount(e, fs)
      && r.rx == (if fs == [] then h.rx else fs[|fs| - 1])
      && r.valid == (if fs == [] then h.valid else Answers(e, fs[|fs| - 1]))
  {
    if fs == [] {
      assert h.log + ParsedLog([]) == h.log;
    } else {
      var n := |fs| - 1;
      HearAllMeans(e, h, fs[..n]);
      assert ParsedLog(fs) == ParsedLog(fs[..n]) + [Parsed(fs[n])];
      assert h.log + ParsedLog(fs) == (h.log + ParsedLog(fs[..n])) + [Parsed(fs[n])];
    }
  }

  // ----- one transaction

  /** The transport as one write attempt sees it: the result of sending, the chunks
      received before the waiter looks, and those received during the retry delay. */
  datatype Attempt = Attempt(sent: int, arrivals: seq<seq<Byte>>, idle: seq<seq<Byte>>)

  function FramesIn(chunks: seq<seq<Byte>>): (fs: seq<seq<Byte>>)
    ensures AllWellFormed(fs)
  {
    FeedAllCuts([], Flatten(chunks));
    FramesAreWellFormed(FeedAll([], Flatten(chunks)).pieces);
    Frames(FeedAll([], Flatten(chunks)).pieces)
  }

  /** The result of one attempt to send `data`: it succeeds exactly when the send works,
      some received frame answers the request, and the last one is not an error frame. */
  function Outcome(data: seq<Byte>, a: Attempt): int {
    if a.sent < 0 then a.sent
    else
      var fs := FramesIn(a.arrivals);
      if AnswerCount(ExpectationOf(data), fs) == 0 then -ETIMEDOUT
      else if fs[|fs| - 1][1] == CMD_ERROR then -EAGAIN
      else 0
  }

  predicate Retryable(code: int) {
    code == -EAGAIN || code == -ETIMEDOUT
  }

  /** How many attempts are made out of at most `max`. */
  function AttemptsMade(data: seq<Byte>, attempts: seq<Attempt>, max: nat): (n: nat)
    requires 1 <= max <= |attempts|
    ensures 1 <= n <= max
    ensures forall i :: 0 <= i < n - 1 ==> Retryable(Outcome(data, attempts[i]))
    ensures n == max || !Retryable(Outcome(data, attempts[n - 1]))
  {
    if max == 1 || !Retryable(Outcome(data, attempts[0])) then 1
    else 1 + AttemptsMade(data, attempts[1..], max - 1)
  }

  /** Only an error frame or a time-out is worth another attempt, and a last attempt that
      ends so is the last one allowed. */
  lemma RetriesOnly(data: seq<Byte>, attempts: seq<Attempt>, max: nat)
    requires 1 <= max <= |attempts|
    ensures var n := AttemptsMade(data, attempts, max);
      && (forall i :: 0 <= i < n - 1 ==> Outcome(data, attempts[i]) in {-11, -110})
      && (Outcome(data, attempts[n - 1]) in {-11, -110} ==> n == max)
  {
    hide Outcome;
  }

  /** Frames parsed during one attempt; nothing is received if sending failed. A failed
      attempt is followed by the retry delay, with the same parser state. */
  function AttemptFrames(data: seq<Byte>, a: Attempt): seq<seq<Byte>> {
    (if a.sent < 0 then [] else FramesIn(a.arrivals)) + DelayFrames(data, a)
  }

  function Residue(a: Attempt): seq<Byte> {
    if a.sent < 0 then [] else FeedAll([], Flatten(a.arrivals)).rest
  }

  function DelayFrames(data: seq<Byte>, a: Attempt): seq<seq<Byte>> {
    if Retryable(Outcome(data, a)) then Frames(FeedAll(Residue(a), Flatten(a.idle)).pieces) else []
  }

  function RunFrames(data: seq<Byte>, attempts: seq<Attempt>): seq<seq<Byte>> {
    if attempts == [] then []
    else AttemptFrames(data, attempts[0]) + RunFrames(data, attempts[1..])
  }

  predicate IsError(f: seq<Byte>)
    requires WellFormed(f)
  {
    f[1] == CMD_ERROR
  }

  /** A frame that answers the request itself. */
  predicate Genuine(e: Expectation, f: seq<Byte>)
    requires WellFormed(f)
  {
    Answers(e, f) && !IsError(f)
  }

  /** What answers a request for a line, in bytes: the same command on the same line. */
  lemma AnswersOwnLine(f: seq<Byte>, r: seq<Byte>)
    requires WellFormed(f) && f[1] in {0x44, 0x52, 0x4F} && f[2] >= 1 && WellFormed(r)
    ensures Genuine(ExpectationOf(f), r) <==> r[1] == f[1] && r[2] >= 1 && r[3] == f[3]
  {
  }

  /** What answers an initialisation, sent with its wake-up byte or without, or a
      configuration: the same command. Nothing else is answered but by an error frame. */
  lemma AnswersOwnCommand(f: seq<Byte>, r: seq<Byte>)
    requires WellFormed(f) && WellFormed(r)
    ensures f[1] in {0x69, 0x43} ==> (Genuine(ExpectationOf(f), r) <==> r[1] == f[1])
    ensures f[1] in {0x69, 0x43} ==> (Genuine(ExpectationOf([0x55] + f), r) <==> r[1] == f[1])
    ensures f[1] !in {0x69, 0x43, 0x44, 0x52, 0x4F} ==> !Genuine(ExpectationOf(f), r)
    ensures r[1] == 0x45 ==> Answers(ExpectationOf(f), r)
  {
  }

  /** The request that sets a line is a frame of its own, and only the answer for that line
      answers it. */
  lemma SetValueAnswered(offset: Byte, level: Byte, r: seq<Byte>)
    requires WellFormed(r)
    ensures SetValueFrame(offset, level) == [0x53, 0x4F, 2, offset, level, 0x0D, 0x0A]
    ensures WellFormed(SetValueFrame(offset, level))
    ensures Genuine(ExpectationOf(SetValueFrame(offset, level)), r) <==> r[1] == 0x4F && r[2] >= 1 && r[3] == offset
  {
    AnswersOwnLine(SetValueFrame(offset, level), r);
  }

  predicate HasError(fs: seq<seq<Byte>>)
    requires AllWellFormed(fs)
  {
    exists i :: 0 <= i < |fs| && IsError(fs[i])
  }

  predicate HasGenuine(e: Expectation, fs: seq<seq<Byte>>)
    requires AllWellFormed(fs)
  {
    exists i :: 0 <= i < |fs| && Genuine(e, fs[i])
  }

  predicate EndsInError(fs: seq<seq<Byte>>)
    requires AllWellFormed(fs)
  {
    fs != [] && IsError(fs[|fs| - 1])
  }

  /** The result of an attempt whose sending works, by the frames that arrive. */
  lemma OutcomeIff(data: seq<Byte>, a: Attempt)
    requires a.sent >= 0
    ensures var fs, e := FramesIn(a.arrivals), ExpectationOf(data);
      && (Outcome(data, a) == -ETIMEDOUT <==> !HasError(fs) && !HasGenuine(e, fs))
      && (Outcome(data, a) == -EAGAIN <==> EndsInError(fs))
      && (Outcome(data, a) == 0 <==> (HasError(fs) || HasGenuine(e, fs)) && !EndsInError(fs))
  {
    var fs, e := FramesIn(a.arrivals), ExpectationOf(data);
    AnswerCountPositive(e, fs);
    hide FramesIn, ExpectationOf, AnswerCount;
    if AnswerCount(e, fs) > 0 {
      var i :| 0 <= i < |fs| && Answers(e, fs[i]);
      assert IsError(fs[i]) || Genuine(e, fs[i]);
    }
  }

  /** An attempt succeeds exactly when some frame answers the request and the last one is
      not an error frame; an answer that is no error frame carries the command and, where
      one is expected, the line asked for. */
  lemma SuccessMeansAnswer(data: seq<Byte>, a: Attempt)
    requires a.sent >= 0
    ensures var fs, e := FramesIn(a.arrivals), ExpectationOf(data);
      && (Outcome(data, a) == 0 <==> !EndsInError(fs) && exists i :: 0 <= i < |fs| && Answers(e, fs[i]))
      && (forall i :: 0 <= i < |fs| && Genuine(e, fs[i]) ==>
            fs[i][1] == TxCmd(data) && (TxHasOffset(TxCmd(data)) ==> fs[i][3] == TxOffset(data)))
  {
    AnswerCountPositive(ExpectationOf(data), FramesIn(a.arrivals));
    hide FramesIn, TxCmd, TxOffset;
  }

  /** A refused request, one that got an error frame and no answer of its own, is reported
      as refused exactly when the last frame to arrive is an error frame; otherwise it
      counts as done. */
  lemma RefusalReportedIff(data: seq<Byte>, a: Attempt)
    requires a.sent >= 0
    requires HasError(FramesIn(a.arrivals)) && !HasGenuine(ExpectationOf(data), FramesIn(a.arrivals))
    ensures Outcome(data, a) == -EAGAIN <==> EndsInError(FramesIn(a.arrivals))
    ensures Outcome(data, a) == 0 <==> !EndsInError(FramesIn(a.arrivals))
  {
    OutcomeIff(data, a);
    hide *;
  }

  /** That a success is never reported without an answer to the request itself holds for
      exactly the attempts in which there is such an answer, or no error frame, or an error
      frame in last place. */
  lemma SuccessGenuineIff(data: seq<Byte>, a: Attempt)
    requires a.sent >= 0
    ensures var fs, e := FramesIn(a.arrivals), ExpectationOf(data);
      (Outcome(data, a) == 0 ==> HasGenuine(e, fs))
      <==> HasGenuine(e, fs) || !HasError(fs) || EndsInError(fs)
  {
    OutcomeIff(data, a);
    hide *;
  }

  /** An error frame can be masked: when another frame, even one about a different
      command, is parsed before the waiter looks, the refused request counts as done. */
  lemma ErrorFrameCanBeMasked() returns (data: seq<Byte>, a: Attempt)
    ensures data == [START, CMD_OUTPUT, 2, 5, 1, TAIL0, TAIL1]
    ensures var fs := FramesIn(a.arrivals);
      && (forall f :: f in fs ==> f[1] != CMD_OUTPUT)
      && (exists f :: f in fs && f[1] == CMD_ERROR)
    ensures Outcome(data, a) == 0
  {
    data := [START, CMD_OUTPUT, 2, 5, 1, TAIL0, TAIL1];
    var refusal := [START, CMD_ERROR, 0, TAIL0, TAIL1];
    var other := [START, CMD_READ, 1, 9, TAIL0, TAIL1];
    var fs := [refusal, other];
    a := Attempt(0, fs, []);
    assert WellFormed(refusal) && WellFormed(other);
    assert AllWellFormed(fs);
    RoundTrip(fs, fs);
    ChunkingIrrelevant([], fs);
    assert FramesIn(a.arrivals) == fs;
    assert fs[0] in fs;
    AnswerCountPositive(ExpectationOf(data), fs);
    assert Answers(ExpectationOf(data), fs[0]);
  }

  // ----- the driver object

  class AiosPort {
    const ngpios: nat
    const packetBuffer: array<Byte>
    var bufferPos: nat
    const rxBuffer: array<Byte>
    var rxLen: nat
    var expectedCmd: Byte
    var expectedOffset: Byte
    var expectOffset: bool
    var responseValid: bool
    var done: nat
    const gpioValues: array<Byte>
    const gpioDirections: array<Byte>
    var attached: bool
    ghost var log: seq<Event>

    ghost predicate Valid()
      reads this, packetBuffer, rxBuffer, gpioValues, gpioDirections
    {
      && Shape()
      && Stable(Buffered())
      && Replays(AtLeastTwo, ngpios, log, gpioValues[..], gpioDirections[..])
    }

    /** The four arrays are separate and have their fixed sizes. */
    predicate Shape()
      reads this
    {
      && bufferPos <= BUF_SIZE && rxLen <= BUF_SIZE
      && packetBuffer.Length == rxBuffer.Length == BUF_SIZE
      && gpioValues.Length == gpioDirections.Length == MAX_LINES
      && packetBuffer != rxBuffer && packetBuffer != gpioValues && packetBuffer != gpioDirections
      && rxBuffer != gpioValues && rxBuffer != gpioDirections && gpioValues != gpioDirections
    }

    ghost function Buffered(): seq<Byte>
      requires packetBuffer.Length == BUF_SIZE && bufferPos <= BUF_SIZE
      reads this, packetBuffer
    {
      packetBuffer[..bufferPos]
    }

    ghost function Ears(): Heard
      requires rxBuffer.Length == BUF_SIZE && rxLen <= BUF_SIZE
      reads this, rxBuffer
    {
      Heard(log, done, rxBuffer[..rxLen], responseValid)
    }

    ghost function Expected(): Expectation
      reads this
    {
      Expectation(expectedCmd, expectedOffset, expectOffset)
    }

    constructor (ngpios: nat)
      ensures Valid() && fresh(packetBuffer) && fresh(rxBuffer)
      ensures fresh(gpioValues) && fresh(gpioDirections)
      ensures this.ngpios == ngpios && Buffered() == [] && log == [] && done == 0
    {
      this.ngpios := ngpios;
      packetBuffer := new Byte[BUF_SIZE](i => 0);
      rxBuffer := new Byte[BUF_SIZE](i => 0);
      gpioValues := new Byte[MAX_LINES](i => 0);
      gpioDirections := new Byte[MAX_LINES](i => 0);
      bufferPos, rxLen, done := 0, 0, 0;
      expectedCmd, expectedOffset, expectOffset, responseValid := 0, 0, false, false;
      attached := true;
      log := [];
    }

    /** Overlapping move of the buffered bytes to the front. */
    method Discard(n: nat)
      requires Shape() && n <= bufferPos
      modifies this`bufferPos, packetBuffer
      ensures bufferPos == old(bufferPos) - n
      ensures Buffered() == old(Buffered())[n..]
    {
      forall i | 0 <= i < bufferPos - n {
        packetBuffer[i] := packetBuffer[i + n];
      }
      bufferPos := bufferPos - n;
    }

    predicate InRange(offset: Byte)
      reads this
    {
      offset < ngpios && offset < MAX_LINES
    }

    method UpdateCachedState(cmd: Byte, dataLen: Byte)
      requires Shape() && dataLen <= 59
      requires WellFormed(rxBuffer[..dataLen as int + 5]) && cmd == rxBuffer[1] && dataLen == rxBuffer[2]
      requires Replays(AtLeastTwo, ngpios, log, gpioValues[..], gpioDirections[..])
      modifies this`log, gpioValues, gpioDirections
      ensures log == old(log) + [Parsed(rxBuffer[..dataLen as int + 5])]
      ensures Replays(AtLeastTwo, ngpios, log, gpioValues[..], gpioDirections[..])
    {
      ghost var frame := rxBuffer[..dataLen as int + 5];
      ReplayFrame(AtLeastTwo, log, frame);
      log := log + [Parsed(frame)];
      if dataLen < 2 {
        return;
      }
      var offset := rxBuffer[3];
      if cmd == CMD_DIRECTION_QUERY {
        if InRange(offset) {
          gpioDirections[offset] := rxBuffer[4];
        }
      } else if cmd == CMD_READ {
        if InRange(offset) {
          gpioValues[offset] := rxBuffer[4];
        }
      } else if cmd == CMD_OUTPUT {
        if InRange(offset) {
          gpioValues[offset] := rxBuffer[4];
        }
      }
    }

    method MatchResponse(cmd: Byte, dataLen: Byte, offset: Byte) returns (b: bool)
      requires Shape() && dataLen <= 59 && WellFormed(rxBuffer[..dataLen as int + 5])
      requires cmd == rxBuffer[1] && dataLen == rxBuffer[2] && (dataLen >= 1 ==> offset == rxBuffer[3])
      ensures b == Answers(Expected(), rxBuffer[..dataLen as int + 5])
    {
      if cmd == CMD_ERROR {
        return true;
      }
      if cmd != expectedCmd {
        return false;
      }
      if cmd == CMD_INIT || cmd == CMD_CONFIG {
        return true;
      }
      if cmd == CMD_DIRECTION_QUERY || cmd == CMD_READ || cmd == CMD_OUTPUT {
        if !expectOffset || dataLen < 1 {
          return false;
        }
        return offset == expectedOffset;
      }
      return false;
    }

    /** Take the complete frame at the front of the buffer. */
    method AcceptFrame(frameLen: nat)
      requires Shape() && 5 <= frameLen <= bufferPos
      requires WellFormed(Buffered()[..frameLen])
      requires Replays(AtLeastTwo, ngpios, log, gpioValues[..], gpioDirections[..])
      modifies this`bufferPos, this`rxLen, this`responseValid, this`done, this`log
      modifies packetBuffer, rxBuffer, gpioValues, gpioDirections
      ensures Shape() && Buffered() == old(Buffered())[frameLen..]
      ensures Ears() == Hear(Expected(), old(Ears()), old(Buffered())[..frameLen])
      ensures Replays(AtLeastTwo, ngpios, log, gpioValues[..], gpioDirections[..])
    {
      ghost var f := Buffered()[..frameLen];
      forall i | 0 <= i < frameLen {
        rxBuffer[i] := packetBuffer[i];
      }
      assert rxBuffer[..frameLen] == f;
      rxLen := frameLen;
      responseValid := false;
      var cmd, dataLen := rxBuffer[1], rxBuffer[2];
      var offset: Byte := 0;
      if dataLen >= 1 {
        offset := rxBuffer[3];
      }
      UpdateCachedState(cmd, dataLen);
      var matched := MatchResponse(cmd, dataLen, offset);
      if matched {
        responseValid := true;
        done := done + 1;
      }
      Discard(frameLen);
    }

    /** One round of the framing loop; `again` says whether the loop goes on. */
    method FrameRound() returns (again: bool, ghost cut: seq<Piece>)
      requires Shape() && 3 <= bufferPos
      requires Replays(AtLeastTwo, ngpios, log, gpioValues[..], gpioDirections[..])
      modifies this`bufferPos, this`rxLen, this`responseValid, this`done, this`log
      modifies packetBuffer, rxBuffer, gpioValues, gpioDirections
      ensures Shape() && bufferPos <= old(bufferPos) && (again ==> bufferPos < old(bufferPos))
      ensures Drain(old(Buffered()))
           == (if again then Drain(Buffered()) else Parse([], Buffered())).After(cut)
      ensures AllWellFormed(Frames(cut))
      ensures Ears() == HearAll(Expected(), old(Ears()), Frames(cut))
      ensures Replays(AtLeastTwo, ngpios, log, gpioValues[..], gpioDirections[..])
    {
      hide Drain, HearAll, Hear, Frames, Replays, WellFormed;
      ghost var buf := Buffered();
      DrainRound(buf, Expected(), Ears());
      if packetBuffer[0] != START {
        Discard(1);
        return true, [Dropped(buf[..1])];
      }
      var frameLen := packetBuffer[2] as int + 5;
      if frameLen > BUF_SIZE {
        bufferPos := 0;
        return false, [Dropped(buf)];
      }
      if bufferPos < frameLen {
        return false, [];
      }
      if packetBuffer[frameLen - 2] != TAIL0 || packetBuffer[frameLen - 1] != TAIL1 {
        Discard(1);
        return true, [Dropped(buf[..1])];
      }
      AcceptFrame(frameLen);
      return true, [Framed(buf[..frameLen])];
    }

    /** The framing loop run after each stored byte. */
    method FrameLoop() returns (ghost pieces: seq<Piece>)
      requires Shape()
      requires Replays(AtLeastTwo, ngpios, log, gpioValues[..], gpioDirections[..])
      modifies this`bufferPos, this`rxLen, this`responseValid, this`done, this`log
      modifies packetBuffer, rxBuffer, gpioValues, gpioDirections
      ensures Valid()
      ensures Parse(pieces, Buffered()) == Drain(old(Buffered()))
      ensures AllWellFormed(Frames(pieces))
      ensures Ears() == HearAll(Expected(), old(Ears()), Frames(pieces))
    {
      pieces := [];
      ghost var start := Drain(Buffered());
      DrainCuts(Buffered());
      hide Replays, HearAll, Drain;
      var again := true;
      assert start.After([]) == start;
      while again && bufferPos >= 3
        invariant Shape()
        invariant (if again then Drain(Buffered()) else Parse([], Buffered())).After(pieces) == start
        invariant AllWellFormed(Frames(pieces))
        invariant Ears() == HearAll(Expected(), old(Ears()), Frames(pieces))
        invariant Replays(AtLeastTwo, ngpios, log, gpioValues[..], gpioDirections[..])
        decreases again, bufferPos
      {
        ghost var cut;
        again, cut := FrameRound();
        AfterAfter(if again then Drain(Buffered()) else Parse([], Buffered()), pieces, cut);
        FramesAppend(pieces, cut);
        HearAllAppend(Expected(), old(Ears()), Frames(pieces), Frames(cut));
        pieces := pieces + cut;
      }
      assert pieces + [] == pieces;
    }

    /** Store one received byte and run the framing loop. */
    method RecvByte(b: Byte) returns (ghost cut: seq<Piece>)
      requires Valid()
      modifies this`bufferPos, this`rxLen, this`responseValid, this`done, this`log
      modifies packetBuffer, rxBuffer, gpioValues, gpioDirections
      ensures Valid()
      ensures Parse(cut, Buffered()) == Feed(old(Buffered()), b)
      ensures AllWellFormed(Frames(cut))
      ensures Ears() == HearAll(Expected(), old(Ears()), Frames(cut))
    {
      if bufferPos == 0 && b != START {
        return [Dropped([b])];
      }
      if bufferPos >= BUF_SIZE {
        assert false;  // the buffer never fills up between bytes, so there is no overflow to reset
      }
      packetBuffer[bufferPos] := b;
      bufferPos := bufferPos + 1;
      assert Buffered() == old(Buffered()) + [b];
      cut := FrameLoop();
    }

    /** The receive callback: every byte offered is consumed. */
    method Recv(data: seq<Byte>) returns (processed: nat)
      requires Valid()
      modifies this`bufferPos, this`rxLen, this`responseValid, this`done, this`log
      modifies packetBuffer, rxBuffer, gpioValues, gpioDirections
      ensures Valid() && processed == |data|
      ensures var p := FeedAll(old(Buffered()), data);
        && Buffered() == p.rest
        && AllWellFormed(Frames(p.pieces))
        && Ears() == HearAll(Expected(), old(Ears()), Frames(p.pieces))
    {
      processed := 0;
      ghost var pieces: seq<Piece> := [];
      ghost var whole := FeedAll(Buffered(), data);
      assert whole.After([]) == whole && data[0..] == data;
      for i := 0 to |data|
        invariant Valid() && processed == i
        invariant FeedAll(Buffered(), data[i..]).After(pieces) == whole
        invariant AllWellFormed(Frames(pieces))
        invariant Ears() == HearAll(Expected(), old(Ears()), Frames(pieces))
      {
        ghost var buf := Buffered();
        assert data[i..][1..] == data[i + 1..];
        ghost var cut := RecvByte(data[i]);
        processed := processed + 1;
        AfterAfter(FeedAll(Buffered(), data[i + 1..]), pieces, cut);
        FramesAppend(pieces, cut);
        HearAllAppend(Expected(), old(Ears()), Frames(pieces), Frames(cut));
        pieces := pieces + cut;
      }
      assert data[|data|..] == [];
      assert pieces + [] == pieces;
    }

    /** Whatever the transport delivers while the driver waits. */
    method RecvChunks(chunks: seq<seq<Byte>>)
      requires Valid()
      modifies this`bufferPos, this`rxLen, this`responseValid, this`done, this`log
      modifies packetBuffer, rxBuffer, gpioValues, gpioDirections
      ensures Valid()
      ensures var p := FeedAll(old(Buffered()), Flatten(chunks));
        && Buffered() == p.rest
        && AllWellFormed(Frames(p.pieces))
        && Ears() == HearAll(Expected(), old(Ears()), Frames(p.pieces))
    {
      ghost var pieces: seq<Piece> := [];
      ghost var whole := FeedChunks(Buffered(), chunks);
      ChunkingIrrelevant(Buffered(), chunks);
      hide Replays, Stable, WellFormed, FeedAll, Flatten;
      assert whole.After([]) == whole && chunks[0..] == chunks;
      for i := 0 to |chunks|
        invariant Valid()
        invariant FeedChunks(Buffered(), chunks[i..]).After(pieces) == whole
        invariant AllWellFormed(Frames(pieces))
        invariant Ears() == HearAll(Expected(), old(Ears()), Frames(pieces))
      {
        ghost var p := FeedAll(Buffered(), chunks[i]);
        assert chunks[i..][1..] == chunks[i + 1..];
        var processed := Recv(chunks[i]);
        AfterAfter(FeedChunks(Buffered(), chunks[i + 1..]), pieces, p.pieces);
        FramesAppend(pieces, p.pieces);
        HearAllAppend(Expected(), old(Ears()), Frames(pieces), Frames(p.pieces));
        pieces := pieces + p.pieces;
      }
      assert chunks[|chunks|..] == [];
      assert pieces + [] == pieces;
    }

    /** Forget what was received before, and expect the answer to `data`. */
    method Expect(data: seq<Byte>)
      requires Valid()
      modifies this`bufferPos, this`rxLen, this`responseValid, this`done
      modifies this`expectedCmd, this`expectedOffset, this`expectOffset
      ensures Valid() && Buffered() == [] && Expected() == ExpectationOf(data)
      ensures Ears() == Heard(log, 0, [], false)
    {
      hide Replays;
      bufferPos, rxLen, responseValid := 0, 0, false;
      expectedCmd, expectedOffset, expectOffset := TxCmd(data), TxOffset(data), TxHasOffset(TxCmd(data));
      done := 0;
    }

    /** Send a frame and wait for the answer. */
    method Write(data: seq<Byte>, a: Attempt) returns (ret: int)
      requires Valid()
      modifies this`bufferPos, this`rxLen, this`responseValid, this`done, this`log
      modifies this`expectedCmd, this`expectedOffset, this`expectOffset
      modifies packetBuffer, rxBuffer, gpioValues, gpioDirections
      ensures Valid()
      ensures !attached ==> ret == -ENODEV && log == old(log)
      ensures attached ==>
                && ret == Outcome(data, a)
                && Buffered() == Residue(a)
                && log == old(log) + ParsedLog(if a.sent < 0 then [] else FramesIn(a.arrivals))
    {
      hide Replays, HearAll, Answers, FeedAll, Flatten, Stable, TxCmd, TxOffset;
      if !attached {
        return -ENODEV;
      }
      Expect(data);
      if a.sent < 0 {
        assert log + ParsedLog([]) == log;
        return a.sent;
      }
      label Sent:
      RecvChunks(a.arrivals);
      ghost var fs := FramesIn(a.arrivals);
      HearAllMeans(Expected(), old@Sent(Ears()), fs);
      if done == 0 {
        return -ETIMEDOUT;
      }
      done := done - 1;
      assert rxBuffer[..rxLen] == fs[|fs| - 1];
      if rxLen >= 2 && rxBuffer[1] == CMD_ERROR {
        return -EAGAIN;
      }
      return 0;
    }

    /** One round of the retry loop: a failed attempt is followed by the retry delay. */
    method TryOnce(data: seq<Byte>, a: Attempt) returns (ret: int)
      requires Valid()
      modifies this`bufferPos, this`rxLen, this`responseValid, this`done, this`log
      modifies this`expectedCmd, this`expectedOffset, this`expectOffset
      modifies packetBuffer, rxBuffer, gpioValues, gpioDirections
      ensures Valid()
      ensures !attached ==> ret == -ENODEV && log == old(log)
      ensures attached ==> ret == Outcome(data, a) && log == old(log) + ParsedLog(AttemptFrames(data, a))
    {
      ret := Write(data, a);
      hide Outcome, Replays, FramesIn, AnswerCount, HearAll, Stable;
      if attached {
        ghost var heard := if a.sent < 0 then [] else FramesIn(a.arrivals);
        if ret == 0 || (ret != -EAGAIN && ret != -ETIMEDOUT) {
          assert AttemptFrames(data, a) == heard;
          return;
        }
        label Delay:
        RecvChunks(a.idle);
        ghost var late := DelayFrames(data, a);
        HearAllMeans(Expected(), old@Delay(Ears()), late);
        LogTwice(old(log), heard, late);
      }
    }

    method WriteRetry(data: seq<Byte>, attempts: seq<Attempt>, retryMax: nat) returns (ret: int)
      requires Valid() && 1 <= retryMax <= |attempts|
      modifies this`bufferPos, this`rxLen, this`responseValid, this`done, this`log
      modifies this`expectedCmd, this`expectedOffset, this`expectOffset
      modifies packetBuffer, rxBuffer, gpioValues, gpioDirections
      ensures Valid()
      ensures !attached ==> ret == -ENODEV && log == old(log)
      ensures attached ==>
                var n := AttemptsMade(data, attempts, retryMax);
                && ret == Outcome(data, attempts[n - 1])
                && log == old(log) + ParsedLog(RunFrames(data, attempts[..n]))
    {
      hide Outcome, Replays, Stable, AttemptFrames, RunFrames;
      ghost var frames: seq<seq<Byte>> := [];
      RunFramesNone(data, attempts);
      assert log + ParsedLog([]) == log;
      ret := 0;
      for i := 0 to retryMax
        invariant Valid()
        invariant attached || i == 0
        invariant forall j :: 0 <= j < i ==> Retryable(Outcome(data, attempts[j]))
        invariant i > 0 ==> ret == Outcome(data, attempts[i - 1])
        invariant frames == RunFrames(data, attempts[..i])
        invariant log == old(log) + ParsedLog(frames)
      {
        ret := TryOnce(data, attempts[i]);
        if !attached {
          return;
        }
        RunFramesStep(data, attempts, i);
        LogTwice(old(log), frames, AttemptFrames(data, attempts[i]));
        frames := frames + AttemptFrames(data, attempts[i]);
        if ret == 0 || (ret != -EAGAIN && ret != -ETIMEDOUT) {
          AttemptsMadeIs(data, attempts, retryMax, i + 1);
          return;
        }
      }
      AttemptsMadeIs(data, attempts, retryMax, retryMax);
    }

    /** Drive an output line; the cache takes the value when the request succeeds. */
    method SetValue(offset: Byte, value: int, attempts: seq<Attempt>)
      requires Valid() && |attempts| >= 3
      modifies this`bufferPos, this`rxLen, this`responseValid, this`done, this`log
      modifies this`expectedCmd, this`expectedOffset, this`expectOffset
      modifies packetBuffer, rxBuffer, gpioValues, gpioDirections
      ensures Valid()
      ensures !attached ==> log == old(log)
      ensures attached ==>
                var level: Byte := if value != 0 then 1 else 0;
                var cmd := SetValueFrame(offset, level);
                var n := AttemptsMade(cmd, attempts, 3);
                log == old(log) + ParsedLog(RunFrames(cmd, attempts[..n]))
                       + (if Outcome(cmd, attempts[n - 1]) < 0 then [] else [ValueSet(offset, level)])
    {
      hide Outcome, Stable, AttemptFrames, RunFrames;
      var level: Byte := if value != 0 then 1 else 0;
      var cmd := SetValueFrame(offset, level);
      var ret := WriteRetry(cmd, attempts, 3);
      if ret < 0 {
        return;
      }
      ReplaySet(AtLeastTwo, log, offset, level);
      log := log + [ValueSet(offset, level)];
      if InRange(offset) {
        gpioValues[offset] := level;
      }
    }
  }

  function SetValueFrame(offset: Byte, level: Byte): seq<Byte> {
    [START, CMD_OUTPUT, 2, offset, level, TAIL0, TAIL1]
  }

  lemma LogTwice(log: seq<Event>, fs: seq<seq<Byte>>, gs: seq<seq<Byte>>)
    ensures (log + ParsedLog(fs)) + ParsedLog(gs) == log + ParsedLog(fs + gs)
  {
  }

  lemma RunFramesNone(data: seq<Byte>, attempts: seq<Attempt>)
    ensures RunFrames(data, attempts[..0]) == []
  {
  }

  lemma {:induction false} RunFramesStep(data: seq<Byte>, attempts: seq<Attempt>, i: nat)
    requires i < |attempts|
    ensures RunFrames(data, attempts[..i + 1])
         == RunFrames(data, attempts[..i]) + AttemptFrames(data, attempts[i])
    decreases i
  {
    hide AttemptFrames;
    if i == 0 {
      assert attempts[..1][1..] == [] && attempts[..0] == [];
    } else {
      var rest := attempts[1..];
      RunFramesStep(data, rest, i - 1);
      assert attempts[..i + 1][1..] == rest[..i] && attempts[..i][1..] == rest[..i - 1];
    }
  }

  /** The number of attempts is the first one whose outcome ends the retries. */
  lemma AttemptsMadeIs(data: seq<Byte>, attempts: seq<Attempt>, max: nat, n: nat)
    requires 1 <= n <= max <= |attempts|
    requires forall i :: 0 <= i < n - 1 ==> Retryable(Outcome(data, attempts[i]))
    requires n == max || !Retryable(Outcome(data, attempts[n - 1]))
    ensures AttemptsMade(data, attempts, max) == n
  {
  }
}

// What the cached line state means: a log of the frames that were parsed and the
// values that were set, searched backwards for the last entry about a line.

module AiosCache {
  import opened AiosFrame

  const MAX_LINES: nat := 16

  datatype Event = Parsed(frame: seq<Byte>) | ValueSet(line: Byte, value: Byte)

  /** The two driver generations differ in which data lengths a state frame may have. */
  datatype Rule = AtLeastTwo | ExactlyTwo {
    predicate Accepts(dataLen: nat) {
      match this
      case AtLeastTwo => dataLen >= 2
      case ExactlyTwo => dataLen == 2
    }
  }

  predicate IsDirectionFrame(rule: Rule, f: seq<Byte>, line: nat) {
    && WellFormed(f) && rule.Accepts(f[2]) && f[1] == CMD_DIRECTION_QUERY && f[3] == line
  }

  predicate IsValueFrame(rule: Rule, f: seq<Byte>, line: nat) {
    && WellFormed(f) && rule.Accepts(f[2]) && f[1] in {CMD_READ, CMD_OUTPUT} && f[3] == line
  }

  /** The direction byte of the last frame that reported one for `line`, else 0. */
  function LastDirection(rule: Rule, log: seq<Event>, line: nat): Byte {
    if log == [] then 0
    else
      match log[|log| - 1]
      case Parsed(f) =>
        if IsDirectionFrame(rule, f, line) then f[4]
        else LastDirection(rule, log[..|log| - 1], line)
      case ValueSet(_, _) => LastDirection(rule, log[..|log| - 1], line)
  }

  /** The value last reported or successfully set for `line`, else 0. */
  function LastValue(rule: Rule, log: seq<Event>, line: nat): Byte {
    if log == [] then 0
    else
      match log[|log| - 1]
      case Parsed(f) =>
        if IsValueFrame(rule, f, line) then f[4]
        else LastValue(rule, log[..|log| - 1], line)
      case ValueSet(l, v) =>
        if l == line then v else LastValue(rule, log[..|log| - 1], line)
  }

  ghost predicate Replays(rule: Rule, ngpios: nat, log: seq<Event>, values: seq<Byte>, directions: seq<Byte>) {
    && |values| == |directions| == MAX_LINES
    && (forall k :: 0 <= k < MAX_LINES && k < ngpios ==>
          directions[k] == LastDirection(rule, log, k) && values[k] == LastValue(rule, log, k))
    && (forall k :: 0 <= k < MAX_LINES && k >= ngpios ==> directions[k] == 0 && values[k] == 0)
  }

  function ParsedLog(fs: seq<seq<Byte>>): seq<Event> {
    seq(|fs|, i requires 0 <= i < |fs| => Parsed(fs[i]))
  }

  lemma ParsedLogAppend(fs: seq<seq<Byte>>, gs: seq<seq<Byte>>)
    ensures ParsedLog(fs + gs) == ParsedLog(fs) + ParsedLog(gs)
  {
  }

  lemma LogGrows(log: seq<Event>, e: Event)
    ensures (log + [e])[..|log|] == log && (log + [e])[|log|] == e
  {
  }

  /** What one more parsed frame does to the meaning of the log, for every line at once. */
  lemma ReplayFrame(rule: Rule, log: seq<Event>, f: seq<Byte>)
    ensures forall k: nat ::
              LastDirection(rule, log + [Parsed(f)], k)
              == (if IsDirectionFrame(rule, f, k) then f[4] else LastDirection(rule, log, k))
    ensures forall k: nat ::
              LastValue(rule, log + [Parsed(f)], k)
              == (if IsValueFrame(rule, f, k) then f[4] else LastValue(rule, log, k))
  {
    LogGrows(log, Parsed(f));
  }

  lemma ReplaySet(rule: Rule, log: seq<Event>, line: Byte, value: Byte)
    ensures forall k: nat ::
              LastDirection(rule, log + [ValueSet(line, value)], k) == LastDirection(rule, log, k)
    ensures forall k: nat ::
              LastValue(rule, log + [ValueSet(line, value)], k)
              == (if line == k then value else LastValue(rule, log, k))
  {
    LogGrows(log, ValueSet(line, value));
  }

  /** A reply with two data bytes: 53 cmd 02 line value 0D 0A. It sets the direction of its
      line (D) or its value (R, O), and nothing else. */
  lemma ReplySetsLine(rule: Rule, log: seq<Event>, cmd: Byte, line: Byte, value: Byte, k: nat)
    ensures var f := [0x53, cmd, 2, line, value, 0x0D, 0x0A];
      && WellFormed(f)
      && LastDirection(rule, log + [Parsed(f)], k)
         == (if cmd == 0x44 && k == line then value else LastDirection(rule, log, k))
      && LastValue(rule, log + [Parsed(f)], k)
         == (if cmd in {0x52, 0x4F} && k == line then value else LastValue(rule, log, k))
  {
    ReplayFrame(rule, log, [0x53, cmd, 2, line, value, 0x0D, 0x0A]);
    hide LastDirection, LastValue;
  }

  /** A reply with fewer data bytes sets nothing; one with more does in the January driver
      and does not in the June driver. */
  lemma OtherLengths(rule: Rule, log: seq<Event>, f: seq<Byte>, k: nat)
    requires WellFormed(f)
    ensures f[2] < 2 ==>
              LastDirection(rule, log + [Parsed(f)], k) == LastDirection(rule, log, k)
              && LastValue(rule, log + [Parsed(f)], k) == LastValue(rule, log, k)
    ensures f[2] > 2 && f[1] == 0x44 && f[3] == k ==>
              LastDirection(AtLeastTwo, log + [Parsed(f)], k) == f[4]
              && LastDirection(ExactlyTwo, log + [Parsed(f)], k) == LastDirection(ExactlyTwo, log, k)
    ensures f[2] > 2 && f[1] in {0x52, 0x4F} && f[3] == k ==>
              LastValue(AtLeastTwo, log + [Parsed(f)], k) == f[4]
              && LastValue(ExactlyTwo, log + [Parsed(f)], k) == LastValue(ExactlyTwo, log, k)
  {
    ReplayFrame(rule, log, f);
    ReplayFrame(AtLeastTwo, log, f);
    ReplayFrame(ExactlyTwo, log, f);
    hide LastDirection, LastValue;
  }

  /** Nothing parsed or set reads as 0. */
  lemma UnheardIsZero(rule: Rule, k: nat)
    ensures LastDirection(rule, [], k) == 0 && LastValue(rule, [], k) == 0
  {
  }
}

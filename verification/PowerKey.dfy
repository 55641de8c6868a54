// The ClawStar power key: an edge interrupt raises a flag, a polled task debounces the
// key and tells a short press (backlight) from a long one (system power).

module PowerKey {

  const TICKS: nat := 0x1_0000_0000
  const LONG_PRESS_TIME_MS: nat := 1500
  const DEBOUNCE_TIME_MS: nat := 5

  type Tick = x: int | 0 <= x < 0x1_0000_0000

  datatype Mode = Idle | Debounce | Pressed | LongDone

  /** `time` is the true uptime in milliseconds, of which the firmware sees the low 32
      bits; `first` and `second` say whether the two reads of the pin found it pressed. */
  datatype Event = Edge(isKey: bool) | Poll(time: nat, first: bool, second: bool)

  datatype Board = Board(
    mode: Mode, keyDownTime: Tick, debounceTime: Tick,
    sysPwr: bool, bl: bool, irq: bool,
    pb1: bool, pa6: bool, pa7: bool,
    edges: nat,    // history: edge interrupts of the key
    longs: nat,    // history: toggles of the system power output
    shorts: nat    // history: toggles of the backlight outputs
  )

  /** After ClawStar_GPIO_Init. */
  const INITIAL: Board := Board(Idle, 0, 0, true, false, false, true, false, false, 0, 0, 0)

  function Now(time: nat): Tick {
    time % TICKS
  }

  /** Elapsed ticks as the firmware computes them, modulo 2^32. */
  function Elapsed(now: Tick, since: Tick): Tick {
    (now - since) % TICKS
  }

  function PollStep(b: Board, now: Tick, first: bool, second: bool): Board {
    match b.mode
    case Idle =>
      if b.irq then
        if first then b.(irq := false, debounceTime := now, mode := Debounce) else b.(irq := false)
      else b
    case Debounce =>
      if Elapsed(now, b.debounceTime) >= DEBOUNCE_TIME_MS then
        if second then b.(keyDownTime := now, mode := Pressed) else b.(mode := Idle)
      else b
    case Pressed =>
      if !second then
        b.(bl := !b.bl, pa6 := !b.bl, pa7 := !b.bl, shorts := b.shorts + 1, mode := Idle)
      else if Elapsed(now, b.keyDownTime) >= LONG_PRESS_TIME_MS then
        b.(sysPwr := !b.sysPwr, pb1 := !b.sysPwr, longs := b.longs + 1, mode := LongDone)
      else b
    case LongDone => if second then b else b.(mode := Idle)
  }

  function Step(b: Board, e: Event): Board {
    match e
    case Edge(isKey) => if isKey then b.(irq := true, edges := b.edges + 1) else b
    case Poll(time, first, second) => PollStep(b, Now(time), first, second)
  }

  /** The board after the first n events. */
  function After(events: seq<Event>, n: nat): Board
    requires n <= |events|
  {
    if n == 0 then INITIAL else Step(After(events, n - 1), events[n - 1])
  }

  class Key {
    var mode: Mode
    var keyDownTime: Tick
    var debounceTime: Tick
    var sysPwr: bool
    var bl: bool
    var irq: bool
    var pb1: bool
    var pa6: bool
    var pa7: bool
    ghost var edges: nat
    ghost var longs: nat
    ghost var shorts: nat

    ghost function State(): Board
      reads this
    {
      Board(mode, keyDownTime, debounceTime, sysPwr, bl, irq, pb1, pa6, pa7, edges, longs, shorts)
    }

    constructor ()
      ensures State() == INITIAL
    {
      mode, keyDownTime, debounceTime := Idle, 0, 0;
      sysPwr, bl, irq := true, false, false;
      pb1, pa6, pa7 := true, false, false;
      edges, longs, shorts := 0, 0, 0;
    }

    method ExtiCallback(isKey: bool)
      modifies this
      ensures State() == Step(old(State()), Edge(isKey))
    {
      if isKey {
        irq := true;
        edges := edges + 1;
      }
    }

    method KeyTask(now: Tick, first: bool, second: bool)
      modifies this
      ensures State() == PollStep(old(State()), now, first, second)
    {
      match mode {
        case Idle =>
          if irq {
            irq := false;
            if first {
              debounceTime := now;
              mode := Debounce;
            }
          }
        case Debounce =>
          if (now - debounceTime) % TICKS >= DEBOUNCE_TIME_MS {
            if second {
              keyDownTime := now;
              mode := Pressed;
            } else {
              mode := Idle;
            }
          }
        case Pressed =>
          HoldOrRelease(now, second);
        case LongDone =>
          if !second {
            mode := Idle;
          }
      }
    }

    method HoldOrRelease(now: Tick, second: bool)
      requires mode == Pressed
      modifies this
      ensures forall first :: State() == PollStep(old(State()), now, first, second)
    {
      if second {
        if (now - keyDownTime) % TICKS >= LONG_PRESS_TIME_MS {
          sysPwr := !sysPwr;
          pb1 := sysPwr;
          longs := longs + 1;
          mode := LongDone;
        }
      } else {
        bl := !bl;
        pa6, pa7 := bl, bl;
        shorts := shorts + 1;
        mode := Idle;
      }
    }
  }

  // ----- edges between polls

  function AfterEdges(b: Board, n: nat): Board {
    if n == 0 then b else Step(AfterEdges(b, n - 1), Edge(true))
  }

  /** However many edges come between two polls, the poll sees one: it takes it when idle,
      and any other poll leaves it pending. */
  lemma {:induction false} EdgesCoalesce(b: Board, n: nat, time: nat, first: bool, second: bool)
    requires n > 0
    ensures AfterEdges(b, n) == b.(irq := true, edges := b.edges + n)
    ensures Step(AfterEdges(b, n), Poll(time, first, second)).irq == (b.mode != Idle)
    decreases n
  {
    hide Elapsed, Now;
    if n > 1 {
      EdgesCoalesce(b, n - 1, time, first, second);
    } else {
      assert AfterEdges(b, 0) == b;
    }
  }

  // ----- whole runs

  /** Every toggle is paid for by an edge interrupt of its own, one more is put aside for
      a press under way and one for a pending flag; and the outputs are always what the
      number of toggles says. */
  ghost predicate Paid(b: Board) {
    && b.longs + b.shorts + (if b.mode in {Debounce, Pressed} then 1 else 0) + (if b.irq then 1 else 0)
       <= b.edges
    && b.pb1 == b.sysPwr == (b.longs % 2 == 0)
    && b.pa6 == b.pa7 == b.bl == (b.shorts % 2 == 1)
  }

  lemma StepKeepsPaid(b: Board, e: Event)
    requires Paid(b)
    ensures Paid(Step(b, e))
  {
  }

  lemma {:induction false} TogglesAndLevels(events: seq<Event>, n: nat)
    requires n <= |events|
    ensures Paid(After(events, n))
  {
    if n > 0 {
      TogglesAndLevels(events, n - 1);
      hide Paid, Step;
      StepKeepsPaid(After(events, n - 1), events[n - 1]);
    }
  }

  /** Polls happen in the order of true time. */
  predicate InOrder(events: seq<Event>) {
    forall i, j :: 0 <= i < j < |events| && events[i].Poll? && events[j].Poll? ==>
      events[i].time <= events[j].time
  }

  /** Every poll from event m up to event n saw the key pressed. */
  predicate HeldThrough(events: seq<Event>, m: nat, n: nat) {
    m <= n <= |events| && forall k :: m <= k < n && events[k].Poll? ==> events[k].second
  }

  /** While the key counts as pressed, some poll started the count, and the key has been
      seen pressed ever since. */
  lemma {:induction false} PressedSince(events: seq<Event>, n: nat) returns (m: nat)
    requires n <= |events| && After(events, n).mode == Pressed
    ensures m < n && events[m].Poll? && HeldThrough(events, m, n)
    ensures After(events, n).keyDownTime == Now(events[m].time)
    ensures forall k :: m < k <= n ==>
              After(events, k).mode == Pressed
              && After(events, k).longs == After(events, n).longs
              && After(events, k).shorts == After(events, n).shorts
  {
    hide Step, Elapsed;
    assert After(events, n) == if n == 0 then INITIAL else Step(After(events, n - 1), events[n - 1]);
    PressedStep(After(events, n - 1), events[n - 1]);
    if After(events, n - 1).mode == Pressed {
      m := PressedSince(events, n - 1);
    } else {
      m := n - 1;
    }
  }

  lemma PressedStep(b: Board, e: Event)
    requires Step(b, e).mode == Pressed
    ensures e.Poll? ==> e.second
    ensures b.mode == Pressed ==> Step(b, e).keyDownTime == b.keyDownTime
    ensures b.mode != Pressed ==> e.Poll? && Step(b, e).keyDownTime == Now(e.time)
    ensures Step(b, e).longs == b.longs && Step(b, e).shorts == b.shorts
  {
    hide Elapsed, Now;
    if e.Edge? {
      assert Step(b, e).keyDownTime == b.keyDownTime;
    } else if b.mode != Pressed {
      assert b.mode == Debounce;
    }
  }

  lemma PowerToggle(b: Board, e: Event)
    requires Step(b, e).longs != b.longs
    ensures b.mode == Pressed && e.Poll? && e.second
    ensures Elapsed(Now(e.time), b.keyDownTime) >= LONG_PRESS_TIME_MS
    ensures Step(b, e).longs == b.longs + 1 && Step(b, e).shorts == b.shorts && Step(b, e).mode == LongDone
  {
    hide Elapsed, Now;
  }

  /** The system power output toggles only after a hold: some earlier poll lies at least
      the long-press time back in true time, and every poll since saw the key pressed. */
  lemma LongPressIsHeld(events: seq<Event>, n: nat) returns (m: nat)
    requires n < |events| && InOrder(events)
    requires After(events, n + 1).longs != After(events, n).longs
    ensures m < n && events[m].Poll? && events[n].Poll?
    ensures events[n].time - events[m].time >= LONG_PRESS_TIME_MS
    ensures HeldThrough(events, m, n + 1)
    ensures After(events, n + 1).longs == After(events, n).longs + 1
    ensures After(events, n + 1).shorts == After(events, n).shorts
  {
    hide Step, Elapsed;
    assert After(events, n + 1) == Step(After(events, n), events[n]);
    PowerToggle(After(events, n), events[n]);
    m := PressedSince(events, n);
    hide After;
    WrappedElapsed(events[m].time, events[n].time);
  }

  /** The wrapped difference never overstates the time that has passed, and is exact for
      anything below 2^32 ms. */
  lemma WrappedElapsed(t0: nat, t1: nat)
    requires t0 <= t1
    ensures Elapsed(Now(t1), Now(t0)) <= t1 - t0
    ensures t1 - t0 < TICKS ==> Elapsed(Now(t1), Now(t0)) == t1 - t0
  {
  }

  /** A poll that finds the key still down toggles the power output exactly when the hold
      has lasted long enough, as long as holds stay below 2^32 ms. */
  lemma LongPressIff(events: seq<Event>, n: nat, m: nat)
    requires n < |events| && InOrder(events) && m < n && events[m].Poll? && events[n].Poll?
    requires After(events, n).mode == Pressed && After(events, n).keyDownTime == Now(events[m].time)
    requires events[n].time - events[m].time < TICKS
    ensures After(events, n + 1).longs == After(events, n).longs + 1
       <==> events[n].second && events[n].time - events[m].time >= LONG_PRESS_TIME_MS
  {
    WrappedElapsed(events[m].time, events[n].time);
  }

  lemma {:induction false} LongDoneStays(events: seq<Event>, m: nat, n: nat)
    requires m <= n <= |events| && After(events, m).mode == LongDone
    requires HeldThrough(events, m, n)
    ensures After(events, n).mode == LongDone
    decreases n - m
  {
    if m < n {
      LongDoneStays(events, m, n - 1);
    }
  }

  /** One toggle per hold: between two toggles of the power output some poll saw the key
      released. */
  lemma OncePerHold(events: seq<Event>, n1: nat, n2: nat) returns (k: nat)
    requires n1 < n2 < |events|
    requires After(events, n1 + 1).longs != After(events, n1).longs
    requires After(events, n2 + 1).longs != After(events, n2).longs
    ensures n1 < k < n2 && events[k].Poll? && !events[k].second
  {
    PowerToggle(After(events, n1), events[n1]);
    PowerToggle(After(events, n2), events[n2]);
    hide Step, After;
    if HeldThrough(events, n1 + 1, n2) {
      LongDoneStays(events, n1 + 1, n2);
      assert false;
    }
    k :| n1 + 1 <= k < n2 && events[k].Poll? && !events[k].second;
  }

  // ----- presses from beginning to end

  /** A press is noticed by a poll after an edge, and believed or dropped by the first poll
      at least five milliseconds later, for what that poll sees. */
  lemma DebounceIff(b: Board, t0: nat, t1: nat, first: bool, first': bool, second: bool)
    requires b.mode == Idle && t0 <= t1 && t1 - t0 < TICKS
    ensures var h := Step(b, Poll(t0, first, second));
      && (h.mode == Debounce <==> b.irq && first) && (h.mode != Debounce ==> h.mode == Idle) && !h.irq
      && (h.mode == Debounce ==>
            var h' := Step(h, Poll(t1, first', second));
            && (h'.mode == Debounce <==> t1 - t0 < 5)
            && (h'.mode == Pressed <==> t1 - t0 >= 5 && second)
            && (h'.mode == Idle <==> t1 - t0 >= 5 && !second)
            && (h'.mode == Pressed ==> h'.keyDownTime == Now(t1)))
  {
    WrappedElapsed(t0, t1);
    hide Now, Elapsed;
  }

  predicate Releases(b: Board, e: Event) {
    b.mode == Pressed && e.Poll? && !e.second
  }

  /** The backlight toggles exactly when a poll sees the key released before it counted as
      held long, and both its outputs with it. */
  lemma ShortToggleIff(b: Board, e: Event)
    ensures Step(b, e).shorts != b.shorts <==> Releases(b, e)
    ensures Step(b, e).bl != b.bl <==> Releases(b, e)
  {
    hide Step, PollStep;
    if Releases(b, e) {
      ReleaseToggles(b, e);
    } else {
      OthersKeep(b, e);
    }
  }

  lemma ReleaseToggles(b: Board, e: Event)
    requires Releases(b, e)
    ensures Step(b, e) == b.(bl := !b.bl, pa6 := !b.bl, pa7 := !b.bl, shorts := b.shorts + 1, mode := Idle)
  {
    hide Elapsed, Now;
  }

  lemma OthersKeep(b: Board, e: Event)
    requires !Releases(b, e)
    ensures Step(b, e).shorts == b.shorts && Step(b, e).bl == b.bl
  {
    hide Elapsed, Now;
  }

  /** Polls m + 1 up to n see the key pressed, less than 1500 ms after poll m. */
  predicate HeldShort(events: seq<Event>, m: nat, n: nat) {
    && m < n <= |events| && events[m].Poll?
    && forall k :: m < k < n && events[k].Poll? ==>
         events[k].second && 0 <= events[k].time - events[m].time < 1500
  }

  lemma HoldStep(b: Board, e: Event, since: nat)
    requires b.mode == Pressed && b.keyDownTime == Now(since)
    requires e.Poll? ==> e.second && 0 <= e.time - since < 1500
    ensures var h := Step(b, e);
      h.mode == Pressed && h.keyDownTime == b.keyDownTime && h.shorts == b.shorts && h.longs == b.longs
  {
    if e.Poll? {
      WrappedElapsed(since, e.time);
    }
    hide Elapsed, Now;
  }

  lemma {:induction false} StillPressed(events: seq<Event>, m: nat, n: nat)
    requires HeldShort(events, m, n)
    requires After(events, m + 1).mode == Pressed && After(events, m + 1).keyDownTime == Now(events[m].time)
    ensures var b, h := After(events, m + 1), After(events, n);
      h.mode == Pressed && h.keyDownTime == b.keyDownTime && h.shorts == b.shorts && h.longs == b.longs
    decreases n - m
  {
    if n > m + 1 {
      StillPressed(events, m, n - 1);
      hide Step, Now;
      HoldStep(After(events, n - 1), events[n - 1], events[m].time);
    }
  }

  /** A press released within 1500 ms toggles the backlight once and the power not at all. */
  lemma ShortPressToggles(events: seq<Event>, m: nat, n: nat)
    requires n < |events| && HeldShort(events, m, n) && events[n].Poll? && !events[n].second
    requires After(events, m + 1).mode == Pressed && After(events, m + 1).keyDownTime == Now(events[m].time)
    ensures var b, h := After(events, m + 1), After(events, n + 1);
      h.shorts == b.shorts + 1 && h.longs == b.longs && h.mode == Idle
  {
    StillPressed(events, m, n);
    hide Elapsed, Now;
  }

  /** A press still held by the first poll from 1500 ms on toggles the power once and the
      backlight not at all. */
  lemma LongPressToggles(events: seq<Event>, m: nat, n: nat)
    requires n < |events| && HeldShort(events, m, n) && events[n].Poll? && events[n].second
    requires 1500 <= events[n].time - events[m].time < TICKS
    requires After(events, m + 1).mode == Pressed && After(events, m + 1).keyDownTime == Now(events[m].time)
    ensures var b, h := After(events, m + 1), After(events, n + 1);
      h.longs == b.longs + 1 && h.shorts == b.shorts && h.mode == LongDone
  {
    StillPressed(events, m, n);
    WrappedElapsed(events[m].time, events[n].time);
    hide Elapsed, Now;
  }
}

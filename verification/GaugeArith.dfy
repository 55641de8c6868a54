// Integer arithmetic of the RK817 fuel gauge: C division, the OCV table lookup, rounded
// ratios, and the capacity registers.

module GaugeArith {
  import opened Arith

  const U16: nat := 0x1_0000
  const U31: nat := 0x8000_0000
  const U32: nat := 0x1_0000_0000
  const MAX_INTERPOLATE: nat := 1000
  const MAX_INT: nat := 0x7FFF

  /** C division by a positive divisor: towards zero. */
  function CDiv(a: int, b: int): int
    requires b > 0
  {
    if a >= 0 then a / b else -(-a / b)
  }

  function Abs(x: int): nat {
    if x >= 0 then x else -x
  }

  function Max(x: int, y: int): int {
    if x >= y then x else y
  }

  /** The DIV macro: zero divides as one. */
  function NonZero(x: int): int {
    if x == 0 then 1 else x
  }

  function ToU32(x: int): nat {
    x % U32
  }

  function ToI32(x: int): int {
    var u := x % U32;
    if u >= U31 then u - U32 else u
  }

  // ----- the OCV table

  /** Thousandths of charge that one step of an n-point table stands for. */
  function StepSize(n: nat): nat
    requires n >= 2
  {
    MAX_INTERPOLATE / (n - 1)
  }

  /** The first entry above the value, or the size. */
  function Slot(value: nat, table: seq<nat>): (i: nat)
    ensures i <= |table|
    ensures forall j :: 0 <= j < i ==> table[j] <= value
    ensures i < |table| ==> value < table[i]
  {
    if table == [] || value < table[0] then 0 else 1 + Slot(value, table[1..])
  }

  /** The reading at the top end uses a different formula from the rest. */
  function TopReading(n: nat): nat
    requires n > 0
  {
    n * ((MAX_INTERPOLATE + n / 2) / n)
  }

  /** The reading at entry i of the table. */
  function Entry(i: nat, n: nat): nat
    requires n >= 2
  {
    i * StepSize(n)
  }

  /** x parts out of g of a step. */
  function Part(x: nat, step: nat, g: nat): nat
    requires g > 0
  {
    x * step / g
  }

  function Inside(value: nat, lo: nat, hi: nat, i: nat, n: nat): nat
    requires n >= 2 && lo <= value < hi && i > 0
  {
    ((value - lo) * StepSize(n) % U16 / (hi - lo) + Entry(i - 1, n)) % U16
  }

  function Capped(d: nat): nat {
    if d > 1000 then 1000 else d
  }

  /** The lookup, with its 16-bit intermediate results. */
  function Lookup(value: nat, table: seq<nat>): nat
    requires 2 <= |table|
  {
    var i, n := Slot(value, table), |table|;
    Capped(if 0 < i < n then Inside(value, table[i - 1], table[i], i, n)
           else i * ((MAX_INTERPOLATE + n / 2) / n) % U16)
  }

  /** The lookup by linear search, as the driver does it; a negative value compares as a
      large unsigned one. */
  method Interpolate(value: int, table: seq<nat>) returns (r: nat)
    requires 2 <= |table| <= 255
    ensures r == Lookup(ToU32(value), table)
  {
    var v := ToU32(value);
    var n := |table|;
    var i := 0;
    assert table[0..] == table;
    while i < n
      invariant i <= n
      invariant Slot(v, table) == i + Slot(v, table[i..])
    {
      if v < table[i] {
        break;
      }
      assert table[i..][1..] == table[i + 1..];
      i := i + 1;
    }
    assert i == n ==> table[i..] == [];
    hide Lookup;
    r := ReadingAt(v, table, i);
  }

  method ReadingAt(v: nat, table: seq<nat>, i: nat) returns (r: nat)
    requires 2 <= |table| <= 255 && i == Slot(v, table)
    ensures r == Lookup(v, table)
  {
    hide Slot, Inside;
    var n := |table|;
    if i > 0 && i < n {
      r := Between(v, table[i - 1], table[i], i, n);
    } else {
      r := i * ((MAX_INTERPOLATE + n / 2) / n) % U16;
    }
    if r > 1000 {
      r := 1000;
    }
  }

  method Between(v: nat, lo: nat, hi: nat, i: nat, n: nat) returns (d: nat)
    requires 2 <= n && 0 < i && lo <= v < hi
    ensures d == Inside(v, lo, hi, i, n)
  {
    var step := MAX_INTERPOLATE / (n - 1);
    assert step == StepSize(n) && (i - 1) * step == Entry(i - 1, n);
    hide StepSize, Entry;
    d := (v - lo) * step % U16;
    d := d / (hi - lo);
    d := (d + (i - 1) * step) % U16;
  }

  ghost predicate Increasing(table: seq<nat>) {
    forall i, j :: 0 <= i < j < |table| ==> table[i] < table[j]
  }

  /** Gaps narrow enough that the 16-bit product does not wrap. */
  ghost predicate GapsFit(table: seq<nat>)
    requires |table| >= 2
  {
    forall i :: 0 < i < |table| ==> GapFits(table, i)
  }

  predicate GapFits(table: seq<nat>, i: nat)
    requires 0 < i < |table|
  {
    (table[i] - table[i - 1] - 1) * StepSize(|table|) < U16
  }

  ghost predicate ValidTable(table: seq<nat>) {
    2 <= |table| <= 255 && Increasing(table) && GapsFit(table)
  }

  /** The highest reading below the top of the table does not exceed the one at the top. */
  predicate TopReaches(table: seq<nat>)
    requires |table| >= 2
  {
    var n := |table|;
    var gap := table[n - 1] as int - table[n - 2] as int;
    gap > 0 && Part(gap - 1, StepSize(n), gap) + Entry(n - 2, n) <= Capped(TopReading(n))
  }

  lemma StepsFit(n: nat)
    requires 2 <= n <= 255
    ensures StepSize(n) > 0 && Entry(n - 1, n) <= 1000
  {
  }

  lemma EntriesAscend(i: nat, j: nat, n: nat)
    requires n >= 2 && i <= j
    ensures Entry(i, n) <= Entry(j, n)
    ensures Entry(i + 1, n) == Entry(i, n) + StepSize(n)
  {
  }

  lemma TopFits(n: nat)
    requires 1 <= n <= 255
    ensures TopReading(n) < U16
  {
  }

  lemma PartBelow(x: nat, s: nat, g: nat)
    requires x < g && s > 0
    ensures x * s <= (g - 1) * s && Part(x, s, g) < s
  {
    MulMonotone(x, g - 1, s);
    MulMonotone(x + 1, g, s);
    assert (x + 1) * s == x * s + s && s * g == g * s;
    DivBelow(x * s, s, g);
  }

  lemma PartMonotone(x: nat, y: nat, s: nat, g: nat)
    requires x <= y && g > 0
    ensures Part(x, s, g) <= Part(y, s, g)
  {
    MulMonotone(x, y, s);
    DivMonotone(x * s, y * s, g);
  }

  /** Between two entries the reading grows from the lower entry's own value by less than
      one step, and nothing wraps. */
  lemma InsideRange(value: nat, lo: nat, hi: nat, i: nat, n: nat)
    requires 2 <= n <= 255 && 0 < i < n && lo <= value < hi
    requires (hi - lo - 1) * StepSize(n) < U16
    ensures Inside(value, lo, hi, i, n) == Part(value - lo, StepSize(n), hi - lo) + Entry(i - 1, n)
    ensures Entry(i - 1, n) <= Inside(value, lo, hi, i, n) < Entry(i, n) <= 1000
  {
    hide StepSize, Entry, Part;
    StepsFit(n);
    EntriesAscend(i - 1, n - 1, n);
    EntriesAscend(i, n - 1, n);
    var s, x, g := StepSize(n), value - lo, hi - lo;
    PartBelow(x, s, g);
    Unwrapped(x, s, g, Entry(i - 1, n));
  }

  lemma Unwrapped(x: nat, s: nat, g: nat, base: nat)
    requires g > 0 && x * s < U16 && Part(x, s, g) + base < U16
    ensures (x * s % U16 / g + base) % U16 == Part(x, s, g) + base
  {
  }

  lemma DivMonotone(x: nat, y: nat, d: nat)
    requires x <= y && d > 0
    ensures x / d <= y / d
  {
    DivBelow(x, x / d, d);
    DivBelow(y, x / d, d);
  }

  lemma SlotMonotone(v1: nat, v2: nat, table: seq<nat>)
    requires v1 <= v2
    ensures Slot(v1, table) <= Slot(v2, table)
  {
    assert forall k :: 0 <= k < Slot(v1, table) ==> table[k] <= v2;
  }

  // ----- readings

  /** What a reading is, by the place of the value in the table. */
  ghost predicate ReadingFits(v: nat, table: seq<nat>)
    requires ValidTable(table)
  {
    var i, n, r := Slot(v, table), |table|, Lookup(v, table);
    if i == 0 then r == 0
    else if i == n then r == Capped(TopReading(n))
    else
      && table[i - 1] <= v < table[i]
      && r == Part(v - table[i - 1], StepSize(n), table[i] - table[i - 1]) + Entry(i - 1, n)
      && Entry(i - 1, n) <= r < Entry(i, n) <= 1000
  }

  lemma LookupCases(v: nat, table: seq<nat>)
    requires ValidTable(table)
    ensures ReadingFits(v, table) && Lookup(v, table) <= 1000
  {
    var i, n := Slot(v, table), |table|;
    if 0 < i < n {
      assert GapFits(table, i);
      InsideRange(v, table[i - 1], table[i], i, n);
      hide StepSize, Inside, Part, Entry, TopReading, GapsFit, GapFits;
    } else {
      hide Lookup, TopReading;
      AtTheEnds(v, table);
    }
  }

  lemma AtTheEnds(v: nat, table: seq<nat>)
    requires 2 <= |table| <= 255
    ensures Slot(v, table) == 0 ==> Lookup(v, table) == 0
    ensures Slot(v, table) == |table| ==> Lookup(v, table) == Capped(TopReading(|table|))
  {
    hide Slot, Inside;
    var i, n := Slot(v, table), |table|;
    if i == 0 {
      assert 0 * ((MAX_INTERPOLATE + n / 2) / n) == 0;
    } else if i == n {
      TopFits(n);
    }
  }

  lemma BelowTop(v: nat, table: seq<nat>)
    requires ValidTable(table) && TopReaches(table) && Slot(v, table) < |table|
    ensures Lookup(v, table) <= Capped(TopReading(|table|))
  {
    var i, n := Slot(v, table), |table|;
    LookupCases(v, table);
    EntriesAscend(i, Max(i, n - 2), n);
    hide Lookup, Part, Entry, StepSize, TopReading;
    if i == n - 1 {
      PartMonotone(v - table[n - 2], table[n - 1] - table[n - 2] - 1, StepSize(n), table[n - 1] - table[n - 2]);
    }
  }

  lemma LookupMonotone(v1: nat, v2: nat, table: seq<nat>)
    requires ValidTable(table) && TopReaches(table) && v1 <= v2
    ensures Lookup(v1, table) <= Lookup(v2, table)
  {
    hide Lookup, Part, Entry, StepSize, TopReading, TopReaches, GapsFit, Increasing, Slot;
    var i, j, n := Slot(v1, table), Slot(v2, table), |table|;
    SlotMonotone(v1, v2, table);
    LookupCases(v1, table);
    LookupCases(v2, table);
    if j == n && i < n {
      BelowTop(v1, table);
    } else if 0 < i == j < n {
      PartMonotone(v1 - table[i - 1], v2 - table[i - 1], StepSize(n), table[i] - table[i - 1]);
    } else if 0 < i < j < n {
      EntriesAscend(i, j - 1, n);
    }
  }

  /** The lookup is monotone in the voltage exactly when the reading at the top of the
      table is not overtaken by the last readings below it. */
  lemma MonotoneIff(table: seq<nat>)
    requires ValidTable(table)
    ensures (forall v1: nat, v2: nat :: v1 <= v2 ==> Lookup(v1, table) <= Lookup(v2, table))
       <==> TopReaches(table)
  {
    if TopReaches(table) {
      hide Lookup, TopReaches;
      forall v1: nat, v2: nat | v1 <= v2 ensures Lookup(v1, table) <= Lookup(v2, table) {
        LookupMonotone(v1, v2, table);
      }
    } else {
      var v1, v2 := TopOvertaken(table);
    }
  }

  lemma TopOvertaken(table: seq<nat>) returns (v1: nat, v2: nat)
    requires ValidTable(table) && !TopReaches(table)
    ensures v1 <= v2 && Lookup(v1, table) > Lookup(v2, table)
  {
    var n := |table|;
    v2 := table[n - 1];
    v1 := v2 - 1;
    SlotOf(v1, table, n - 1);
    SlotOf(v2, table, n);
    LookupCases(v1, table);
    LookupCases(v2, table);
    hide Lookup, Part, Entry, StepSize, TopReading, GapsFit;
  }

  lemma {:induction false} SlotOf(v: nat, table: seq<nat>, i: nat)
    requires Increasing(table) && i <= |table|
    requires i > 0 ==> table[i - 1] <= v
    requires i < |table| ==> v < table[i]
    ensures Slot(v, table) == i
  {
  }

  /** A 21-point table, the size the driver uses, is always monotone; gaps up to 1310 are
      narrow enough. */
  lemma TwentyOnePoints(table: seq<nat>)
    requires |table| == 21 && Increasing(table)
    requires forall i :: 0 < i < 21 ==> table[i] - table[i - 1] <= 1310
    ensures ValidTable(table) && TopReaches(table)
    ensures Capped(TopReading(21)) == 1000
  {
    assert StepSize(21) == 50;
    var gap := table[20] - table[19];
    PartBelow(gap - 1, 50, gap);
  }

  /** What such a table reads: nothing below it, all at its top, and fifty more for every
      entry, with an even share of fifty in between. */
  lemma TwentyOneReadings(table: seq<nat>, i: nat, v: nat)
    requires |table| == 21 && Increasing(table)
    requires forall k :: 0 < k < 21 ==> table[k] - table[k - 1] <= 1310
    ensures v < table[0] ==> Lookup(v, table) == 0
    ensures v >= table[20] ==> Lookup(v, table) == 1000
    ensures i < 20 && table[i] <= v < table[i + 1] ==>
              Lookup(v, table) == 50 * i + (v - table[i]) * 50 / (table[i + 1] - table[i])
  {
    TwentyOnePoints(table);
    if i < 20 && table[i] <= v < table[i + 1] {
      SlotOf(v, table, i + 1);
    }
    SlotEnds(v, v, table);
    LookupCases(v, table);
    assert StepSize(21) == 50;
    hide Lookup, Slot, GapsFit, Increasing, TopReaches, TopReading, Capped;
  }

  /** So every entry of the table is worth five percent. */
  lemma EntriesFivePercent(table: seq<nat>, i: nat, fcc: nat)
    requires |table| == 21 && Increasing(table) && i <= 20 && table[i] < U31 && fcc <= MAX_INT
    requires forall k :: 0 < k < 21 ==> table[k] - table[k - 1] <= 1310
    ensures VolToSoc(table[i], table) == 5 * i
    ensures VolToCap(table[i], table, fcc) == (50 * i * fcc + 500) / 1000
  {
    TwentyOneReadings(table, i, table[i]);
    if i < 20 {
      assert 0 * 50 / (table[i + 1] - table[i]) == 0;
    }
    hide Lookup, AbDivC, Increasing;
    assert ToU32(table[i]) == table[i];
    Thousandths(50 * i, 100);
    Thousandths(50 * i, fcc);
  }

  /** Some sizes are not: with 26 points the top of the table reads less than the voltage
      just below it. */
  lemma TwentySixPointsFail() returns (table: seq<nat>)
    ensures |table| == 26 && ValidTable(table) && !TopReaches(table)
    ensures exists v1: nat, v2: nat :: v1 <= v2 && Lookup(v1, table) > Lookup(v2, table)
  {
    table := seq(26, i requires 0 <= i < 26 => 3000 + 100 * i);
    assert StepSize(26) == 40;
    MonotoneIff(table);
  }

  // ----- ratios

  /** (a * b) / c rounded, in unsigned 32-bit arithmetic, capped at 0x7FFF. */
  function AbDivC(a: nat, b: nat, c: nat): int
    requires a < U32 && b < U32 && c < U32
  {
    var sign := (a >= U31) != ((b >= U31) != (c >= U31));
    var d := if sign then (U32 - c) % U32 else c;
    var tmp := if c == 0 then 0 else ToI32((a * b + d / 2) % U32 / d);
    var ans := if c != 0 && tmp < MAX_INT then tmp else MAX_INT;
    if sign then -ans else ans
  }

  lemma AbDivCIs(a: nat, b: nat, c: nat)
    requires a < U31 && b < U31 && 0 < c < U31 && a * b + c / 2 < U31
    ensures AbDivC(a, b, c) == (if (a * b + c / 2) / c < MAX_INT then (a * b + c / 2) / c else MAX_INT)
  {
    var x := a * b + c / 2;
    DivAntitone(x, 1, c);
    assert x / 1 == x;
    Rounded(x, c);
  }

  lemma Rounded(x: nat, c: nat)
    requires 0 < c && x < U31 && x / c <= x
    ensures x % U32 == x && ToI32(x % U32 / c) == x / c
  {
  }

  function VolToSoc(voltage: int, table: seq<nat>): int
    requires 2 <= |table|
  {
    AbDivC(Lookup(ToU32(voltage), table), 100, 1000)
  }

  function VolToCap(voltage: int, table: seq<nat>, fcc: nat): int
    requires 2 <= |table| && fcc < U32
  {
    AbDivC(Lookup(ToU32(voltage), table), fcc, 1000)
  }

  lemma Thousandths(x: nat, b: nat)
    requires x <= 1000 && b <= MAX_INT
    ensures AbDivC(x, b, 1000) == (x * b + 500) / 1000
    ensures 0 <= AbDivC(x, b, 1000) <= b
    ensures x == 0 ==> AbDivC(x, b, 1000) == 0
    ensures x == 1000 ==> AbDivC(x, b, 1000) == b
  {
    MulMonotone(x, 1000, b);
    assert 1000 * b <= 1000 * MAX_INT;
    AbDivCIs(x, b, 1000);
    hide AbDivC;
  }

  lemma ReadingsInOrder(v1: nat, v2: nat, table: seq<nat>)
    requires ValidTable(table) && TopReaches(table) && Capped(TopReading(|table|)) == 1000 && v1 <= v2
    ensures Lookup(v1, table) <= Lookup(v2, table) <= 1000
    ensures v1 < table[0] ==> Lookup(v1, table) == 0
    ensures v2 >= table[|table| - 1] ==> Lookup(v2, table) == 1000
  {
    hide Lookup, TopReading, TopReaches, StepSize, Part, Entry, GapsFit;
    LookupCases(v1, table);
    LookupCases(v2, table);
    LookupMonotone(v1, v2, table);
    SlotEnds(v1, v2, table);
  }

  /** With a table of the driver's shape the estimated charge grows with the voltage,
      from 0 below the table to everything at its top. */
  lemma EstimatesMonotone(v1: nat, v2: nat, table: seq<nat>, fcc: nat)
    requires ValidTable(table) && TopReaches(table) && Capped(TopReading(|table|)) == 1000
    requires v1 <= v2 < U31 && fcc <= MAX_INT
    ensures 0 <= VolToSoc(v1, table) <= VolToSoc(v2, table) <= 100
    ensures 0 <= VolToCap(v1, table, fcc) <= VolToCap(v2, table, fcc) <= fcc
    ensures v1 < table[0] ==> VolToSoc(v1, table) == 0 && VolToCap(v1, table, fcc) == 0
    ensures v2 >= table[|table| - 1] ==> VolToSoc(v2, table) == 100 && VolToCap(v2, table, fcc) == fcc
  {
    hide Lookup, AbDivC, TopReading, TopReaches;
    assert ToU32(v1) == v1 && ToU32(v2) == v2;
    ReadingsInOrder(v1, v2, table);
    var x1, x2 := Lookup(v1, table), Lookup(v2, table);
    Thousandths(x1, 100);
    Thousandths(x2, 100);
    Thousandths(x1, fcc);
    Thousandths(x2, fcc);
    MulMonotone(x1, x2, fcc);
    DivMonotone(x1 * fcc + 500, x2 * fcc + 500, 1000);
  }

  lemma SlotEnds(v1: nat, v2: nat, table: seq<nat>)
    requires Increasing(table) && |table| > 0
    ensures v1 < table[0] ==> Slot(v1, table) == 0
    ensures v2 >= table[|table| - 1] ==> Slot(v2, table) == |table|
  {
  }

  // ----- the capacity registers

  /** The register image of a capacity, in unsigned 32-bit arithmetic. */
  function CapacityToAdc(capacity: nat, resDiv: nat): nat {
    capacity * resDiv % U32 * 3600 % U32 / 172 * 1000 % U32
  }

  /** The capacity read back, in signed 32-bit arithmetic. */
  function AdcToCapacity(val: int, resDiv: nat): int
    requires resDiv > 0
  {
    CDiv(CDiv(ToI32(CDiv(val, 1000) * 172), 3600), resDiv)
  }

  class CapacityRegisters {
    var h3: nat
    var h2: nat
    var l1: nat
    var l0: nat
    var qmax: int

    ghost predicate Holds(adc: nat)
      reads this
    {
      adc == h3 * 0x100_0000 + h2 * 0x1_0000 + l1 * 0x100 + l0
      && h3 < 256 && h2 < 256 && l1 < 256 && l0 < 256
    }

    method UpdateQmax(capacity: nat, resDiv: nat)
      requires capacity < U32
      modifies this
      ensures Holds(CapacityToAdc(capacity, resDiv)) && qmax == capacity
    {
      var capAdc := CapacityToAdc(capacity, resDiv);
      h3 := capAdc / 0x100_0000 % 256;
      h2 := capAdc / 0x1_0000 % 256;
      l1 := capAdc / 0x100 % 256;
      l0 := capAdc % 256;
      qmax := capacity;
      Bytes(capAdc);
    }

    lemma Bytes(v: nat)
      requires v < U32
      ensures v == v / 0x100_0000 % 256 * 0x100_0000 + v / 0x1_0000 % 256 * 0x1_0000
                   + v / 0x100 % 256 * 0x100 + v % 256
    {
      assert v == v / 256 * 256 + v % 256;
      assert v / 0x100 == v / 0x1_0000 * 256 + v / 0x100 % 256;
      assert v / 0x1_0000 == v / 0x100_0000 * 256 + v / 0x1_0000 % 256;
    }

    method GetQmax(resDiv: nat, ghost adc: nat) returns (r: int)
      requires resDiv > 0 && Holds(adc)
      modifies this`qmax
      ensures r == qmax == ToU32(AdcToCapacity(ToI32(adc), resDiv))
    {
      var val := ToI32(h3 * 0x100_0000 + h2 * 0x1_0000 + l1 * 0x100 + l0);
      r := ToU32(AdcToCapacity(val, resDiv));
      qmax := r;
    }
  }

  /** Write a capacity and read it back. */
  function RoundTrip(capacity: nat, resDiv: nat): nat
    requires resDiv > 0
  {
    ToU32(AdcToCapacity(ToI32(CapacityToAdc(capacity, resDiv)), resDiv))
  }

  /** Up to 102602 mAh times the divisor, a capacity comes back unchanged if 43 divides it
      and one short otherwise. */
  lemma RoundTripIs(capacity: nat, resDiv: nat)
    requires resDiv in {1, 2} && capacity * resDiv <= 102602
    ensures RoundTrip(capacity, resDiv) == (if capacity % 43 == 0 then capacity else capacity - 1)
  {
    var x := capacity * resDiv * 3600 / 172;
    Encoded(capacity * resDiv);
    assert CapacityToAdc(capacity, resDiv) == x * 1000;
    Decoded(x, resDiv);
    ScaleBack(capacity, resDiv);
    hide CapacityToAdc, AdcToCapacity, ToI32;
  }

  /** A register image counts 900000 for every 43 mAh, with divisor 1. */
  lemma ImageOf(k: nat)
    requires k <= 2386
    ensures CapacityToAdc(43 * k, 1) == 900000 * k
    ensures AdcToCapacity(900000 * k, 1) == 43 * k
  {
    assert 43 * k * 3600 / 172 == 900 * k;
  }

  lemma Encoded(p: nat)
    requires p <= 102602
    ensures p % U32 * 3600 % U32 / 172 * 1000 % U32 == p * 3600 / 172 * 1000 < U31
  {
  }

  lemma Decoded(x: nat, resDiv: nat)
    requires resDiv in {1, 2} && x * 1000 < U31
    ensures ToI32(x * 1000) == x * 1000
    ensures AdcToCapacity(x * 1000, resDiv) == x * 172 / 3600 / resDiv
    ensures ToU32(x * 172 / 3600 / resDiv) == x * 172 / 3600 / resDiv
  {
    assert x * 1000 / 1000 == x;
    assert ToI32(x * 172) == x * 172;
    assert x * 172 / 3600 / resDiv <= x;
  }

  /** 3600/172 is 900/43, so only the remainder by 43 is lost on the way. */
  lemma ScaleBack(capacity: nat, resDiv: nat)
    requires resDiv in {1, 2}
    ensures capacity * resDiv * 3600 / 172 * 172 / 3600 / resDiv
         == (if capacity % 43 == 0 then capacity else capacity - 1)
  {
    var q, r := capacity / 43, capacity % 43;
    assert capacity == 43 * q + r;
    if resDiv == 1 {
      assert capacity * 3600 / 172 == 900 * q + r * 900 / 43;
      ScaleRemainder(r);
    } else {
      assert capacity * 2 * 3600 / 172 == 1800 * q + r * 1800 / 43;
      ScaleRemainder2(r);
    }
  }

  lemma ScaleRemainder(r: nat)
    requires r < 43
    ensures var t := r * 900 / 43;
      if r == 0 then t == 0 else (r - 1) * 3600 <= t * 172 < r * 3600
  {
  }

  lemma ScaleRemainder2(r: nat)
    requires r < 43
    ensures var t := r * 1800 / 43;
      if r == 0 then t == 0 else (2 * r - 1) * 3600 <= t * 172 < 2 * r * 3600
  {
  }

  function RoundTrips(capacity: nat, resDiv: nat, n: nat): nat
    requires resDiv > 0
    decreases n
  {
    if n == 0 then capacity else RoundTrip(RoundTrips(capacity, resDiv, n - 1), resDiv)
  }

  /** Repeated round trips walk down to the multiple of 43 below the capacity and stop. */
  lemma {:induction false} RoundTripsSettle(capacity: nat, resDiv: nat, n: nat)
    requires resDiv in {1, 2} && capacity * resDiv <= 102602
    ensures RoundTrips(capacity, resDiv, n) == Max(capacity - n, capacity / 43 * 43)
    decreases n
  {
    if n > 0 {
      RoundTripsSettle(capacity, resDiv, n - 1);
      var c := RoundTrips(capacity, resDiv, n - 1);
      hide RoundTrip;
      MulMonotone(c, capacity, resDiv);
      RoundTripIs(c, resDiv);
      MultipleReached(capacity, c);
    }
  }

  lemma MultipleReached(capacity: nat, c: nat)
    requires capacity / 43 * 43 <= c <= capacity
    ensures c % 43 == 0 <==> c == capacity / 43 * 43
  {
    DivModOf(capacity / 43, 43, c - capacity / 43 * 43);
  }

  /** Whatever the registers hold reads back as at most 102601 mAh for divisor 1, or as a
      negative capacity seen through an unsigned word. */
  lemma ReadBackRange(adc: int, resDiv: nat)
    requires resDiv in {1, 2}
    ensures var c := ToU32(AdcToCapacity(ToI32(adc), resDiv));
      c * resDiv <= 102601 || c >= U31
  {
    var v := ToI32(adc);
    assert -0x8000_0000 <= v < U31;
    hide ToI32;
    ScaledRange(v);
    var w := CDiv(v, 1000) * 172;
    SmallSigned(w);
    hide CDiv;
    HalvedRange(CDiv(w, 3600), resDiv);
  }

  lemma ScaledRange(v: int)
    requires -0x8000_0000 <= v < U31
    ensures -369367076 <= CDiv(v, 1000) * 172 <= 369367076
    ensures -102601 <= CDiv(CDiv(v, 1000) * 172, 3600) <= 102601
  {
  }

  lemma SmallSigned(w: int)
    requires -0x8000_0000 <= w < U31
    ensures ToI32(w) == w
  {
  }

  lemma HalvedRange(x: int, resDiv: nat)
    requires resDiv in {1, 2} && -102601 <= x <= 102601
    ensures var c := ToU32(CDiv(x, resDiv)); c * resDiv <= 102601 || c >= U31
  {
  }

  /** A capacity survives the registers, up to the one it may lose, exactly while capacity
      times divisor is at most 102602. */
  lemma RoundTripIff(capacity: nat, resDiv: nat)
    requires resDiv in {1, 2} && capacity < U31
    ensures RoundTrip(capacity, resDiv) == (if capacity % 43 == 0 then capacity else capacity - 1)
       <==> capacity * resDiv <= 102602
  {
    hide CapacityToAdc, AdcToCapacity, ToI32, ToU32;
    if capacity * resDiv <= 102602 {
      RoundTripIs(capacity, resDiv);
    } else {
      ReadBackRange(CapacityToAdc(capacity, resDiv), resDiv);
    }
  }
}

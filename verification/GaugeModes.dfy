// What single algorithms of the gauge mean for their callers: when re-seeding reads as full,
// what a prepared slope has pending, when zero mode is on, and what a sleep leaves alone.

module GaugeModes {
  import Arith
  import opened GaugeArith
  import opened GaugeModel
  import opened GaugeRuns

  // ----- the coulomb counter

  /** Largest capacity (mAh) whose share in thousandths fits an unsigned word. */
  const MAX_SEED: int := 42949

  /** The charge read after re-seeding is a share of the full capacity: full for all of it
      and for nothing less. */
  lemma SeededShare(g: Gauge, cap: int)
    requires g.Valid() && 0 <= cap <= g.fcc <= MAX_SEED
    ensures var h := InitCoulomb(g, cap);
      && h.remainCap == cap * 1000
      && 0 <= h.rsoc <= FULL && (h.rsoc == FULL <==> cap == g.fcc)
      && h.rsoc * g.fcc <= cap * 100000 < (h.rsoc + 1) * g.fcc
  {
    var x, q := cap * 100000, cap * 100000 / g.fcc;
    FitsWord(cap);
    hide ToU32;
    ShareOf(cap, g.fcc);
    SmallSigned(q);
    hide ToI32, ToU32;
  }

  lemma FitsWord(cap: nat)
    requires cap <= MAX_SEED
    ensures ToU32(cap * 1000) == cap * 1000 && ToU32(cap * 1000 * 100) == cap * 100000
  {
  }

  lemma ShareOf(cap: nat, fcc: nat)
    requires cap <= fcc && fcc > 0
    ensures var q := cap * 100000 / fcc;
      && q * fcc <= cap * 100000 < (q + 1) * fcc
      && 0 <= q <= FULL && (q == FULL <==> cap == fcc)
  {
    var x, q := cap * 100000, cap * 100000 / fcc;
    Arith.DivBelow(x, q, fcc);
    Arith.DivBelow(x, q + 1, fcc);
    Arith.DivBelow(x, FULL, fcc);
    Arith.DivBelow(x, FULL + 1, fcc);
  }

  /** Setting the counter to the full capacity reads as full exactly up to that limit. */
  lemma SeededFullIff(g: Gauge)
    requires g.Valid()
    ensures InitCoulomb(g, g.fcc).rsoc == FULL <==> g.fcc <= MAX_SEED
  {
    if g.fcc <= MAX_SEED {
      SeededShare(g, g.fcc);
    } else {
      WrappedShare(g.fcc);
      hide ToU32, ToI32;
    }
  }

  lemma WrappedShare(fcc: nat)
    requires MAX_SEED < fcc < U32
    ensures ToI32(ToU32(fcc * 1000 * 100) / fcc) < FULL
  {
    var x := fcc * 100000;
    assert ToU32(fcc * 1000 * 100) == x % U32 < x;
    var w := x % U32;
    hide ToU32;
    Arith.DivBelow(w, FULL, fcc);
    SmallSigned(w / fcc);
    hide ToI32;
  }

  /** The counter ends at most at the full capacity, rounded up to the next mAh, and
      capping it once more changes nothing. */
  lemma CappedBound(g: Gauge)
    requires g.Valid()
    ensures CounterCapped(g).remainCap <= g.fcc * 1000 + 999
    ensures CounterCapped(CounterCapped(g)) == CounterCapped(g)
  {
    assert forall x: nat :: ToU32(x) <= x;
    hide ToI32, ToU32;
    var h := CounterCapped(g);
    assert h.remainCap <= g.fcc * 1000 + 999;
    assert h.remainCap / 1000 <= g.fcc;
  }

  // ----- slopes

  /** After preparing, smoothing starts from the report, with a slope of the current's
      sign and between three quarters and four thirds, and nothing pending. */
  lemma PreparedSlope(g: Gauge, current: int)
    requires g.Valid()
    ensures var h := SmoothPrepare(g, current);
      && h.smoothSoc == h.dsoc == g.dsoc
      && (current > 0 ==> 750 <= h.smLinek <= 1333) && (current <= 0 ==> -1333 <= h.smLinek <= -750)
      && SmoothChange(h.smLinek, h.fcc, h.remainCap - h.smRemainCap) == 0
  {
    SmoothSlopeValues(g.dsoc, g.rsoc, current);
    hide SmoothSlope, SmoothChange;
    NothingCounted(SmoothSlope(g.dsoc, g.rsoc, current), g.fcc);
  }

  lemma SocRange(voltage: int, table: seq<nat>)
    requires 2 <= |table|
    ensures 0 <= VolToSoc(voltage, table) <= 100
  {
    assert Lookup(ToU32(voltage), table) <= 1000 by {
      hide Slot, Inside, ToU32;
    }
    hide Lookup, AbDivC, ToU32;
    Thousandths(Lookup(ToU32(voltage), table), 100);
  }

  lemma CapRange(voltage: int, table: seq<nat>, fcc: nat)
    requires 2 <= |table| && fcc <= MAX_INT
    ensures 0 <= VolToCap(voltage, table, fcc) <= fcc
  {
    assert Lookup(ToU32(voltage), table) <= 1000 by {
      hide Slot, Inside, ToU32;
    }
    hide Lookup, AbDivC, ToU32;
    Thousandths(Lookup(ToU32(voltage), table), fcc);
  }

  /** The usable charge is a difference of two percentages, and what is kept in hand
      is 3, 5 or 10 of them by the load, and 5 more near the end. */
  lemma UsableRange(p: Params, g: Gauge, r: ZeroIn)
    requires p.Valid()
    ensures -100 <= UsableSoc(p, g, r) <= 100
    ensures var gap := MinGap(p, g, r.current, UsableSoc(p, g, r));
      gap in {3, 5, 10} || (gap in {8, 10, 15} && UsableSoc(p, g, r) <= 30)
  {
    hide OpenVoltage, DeadVoltage, VolToSoc, ToU32;
    SocRange(OpenVoltage(p, r), p.ocvTable);
    SocRange(DeadVoltage(p, g, r), p.ocvTable);
  }

  /** At the same load, a higher voltage never leaves less to use. */
  lemma UsableGrows(p: Params, g: Gauge, r1: ZeroIn, r2: ZeroIn)
    requires p.Valid() && r1.current == r2.current && r1.voltage <= r2.voltage
    requires ValidTable(p.ocvTable) && TopReaches(p.ocvTable) && Capped(TopReading(|p.ocvTable|)) == 1000
    requires 0 <= OpenVoltage(p, r1) && OpenVoltage(p, r2) < U31
    ensures UsableSoc(p, g, r1) <= UsableSoc(p, g, r2)
  {
    assert OpenVoltage(p, r1) <= OpenVoltage(p, r2) && DeadVoltage(p, g, r1) == DeadVoltage(p, g, r2) by {
      hide CDiv, ShutdownVoltage;
    }
    hide OpenVoltage, DeadVoltage, VolToSoc, VolToCap, TopReaches, ValidTable, TopReading;
    EstimatesMonotone(OpenVoltage(p, r1), OpenVoltage(p, r2), p.ocvTable, 0);
  }

  // ----- the mode machine

  lemma SmoothKeepsReadings(g: Gauge, r: SmoothIn)
    requires g.Valid()
    ensures var h := SmoothAlgorithm(g, r);
      h.mode == g.mode && h.currentAvg == g.currentAvg && h.voltageAvg == g.voltageAvg
  {
    hide TurnSlope, SmoothSlope, SmoothChange, CountChange;
    TurnKeeps(g, r.turnCurrent);
    var g1 := TurnSlope(g, r.turnCurrent).(remainCap := r.cap);
    CountFollows(g1, SmoothChange(g1.smLinek, g1.fcc, g1.remainCap - g1.smRemainCap), r.s2rCurrent);
  }

  predicate SensibleThreshold(p: Params) {
    0 <= p.zeroAlgorithmVol < 0x8000_0000 - 50
  }

  /** A step in finish mode: without a drain it does not lower the report nor lead to zero
      mode, and finish mode lasts as long as the charge looks finished. */
  lemma FinishModeMeans(p: Params, g: Gauge, t: TickIn)
    requires p.Valid() && g.Valid() && g.mode == ModeFinish
    ensures var h := InFinish(p, g, t);
      && (h.mode == ModeFinish <==>
            Finishing(p, FinishAlgorithm(p, g, t.finishStatus, t.now), t.exitStatus1, t.exitStatus2))
      && (g.currentAvg >= 0 ==> h.dsoc >= g.dsoc && h.mode != ModeZero)
      && (h.mode == ModeZero ==> LowVoltage(p, g))
      && (h.mode == ModeSmooth ==> h.smoothSoc == h.dsoc)
  {
    FinishRaises(p, g, t.finishStatus, t.now);
    hide FinishAlgorithm, Finishing, ZeroPrepare, SmoothSlope, ToU32;
    ZeroPrepareLowers(p, FinishAlgorithm(p, g, t.finishStatus, t.now), t.prepZero);
  }

  /** A step in zero mode: it never raises the report, and zero mode lasts only below the
      upper threshold under load. */
  lemma ZeroModeMeans(p: Params, g: Gauge, t: TickIn)
    requires p.Valid() && g.Valid() && g.mode == ModeZero
    ensures var h := InZero(p, g, t);
      && h.dsoc <= Max(g.dsoc, 0)
      && (h.mode == ModeSmooth <==> Recovered(p, g))
      && (h.mode == ModeFinish <==>
            !Recovered(p, g)
            && Finishing(p, ZeroAlgorithm(p, g, t.zero1, t.zero2), t.exitStatus1, t.exitStatus2))
      && (h.mode == ModeSmooth ==> h.smoothSoc == h.dsoc)
  {
    ZeroAlgorithmLowers(p, g, t.zero1, t.zero2);
    hide ZeroAlgorithm, Finishing, SmoothSlope, ToU32;
  }

  /** A step in smooth mode: the report moves the way the current flows, and zero mode
      follows exactly below the lower threshold under load. */
  lemma SmoothModeMeans(p: Params, g: Gauge, t: TickIn)
    requires p.Valid() && g.Valid() && g.mode == ModeSmooth
    ensures var h := InSmooth(p, g, t);
      && (h.mode == ModeZero <==> LowVoltage(p, g))
      && (h.mode == ModeFinish <==>
            !LowVoltage(p, g)
            && Finishing(p, SmoothAlgorithm(g, t.smooth), t.exitStatus1, t.exitStatus2))
      && (g.currentAvg < 0 && t.smooth.turnCurrent < 0 ==> h.dsoc <= Max(g.dsoc, 0))
      && (g.currentAvg > 0 && t.smooth.turnCurrent > 0 ==> h.dsoc >= g.dsoc)
  {
    hide SmoothAlgorithm, Finishing, ZeroPrepare, SmoothSlope, ToU32;
    SmoothKeepsReadings(g, t.smooth);
    var i, j := g.currentAvg, t.smooth.turnCurrent;
    if (i < 0 && j < 0) || (i > 0 && j > 0) {
      SmoothFollowsCurrent(g, t.smooth);
    }
    ZeroPrepareLowers(p, SmoothAlgorithm(g, t.smooth), t.prepZero);
  }

  /** After any tick that is not the reset after a resume, zero mode means a load on a
      voltage below the upper threshold. */
  lemma ZeroModeMeansLow(p: Params, g: Gauge, t: TickIn)
    requires p.Valid() && g.Valid() && SensibleThreshold(p) && !(g.s2r && !g.sleepChrgOnline)
    requires DisplaySmooth(p, g, t).mode == ModeZero
    ensures g.currentAvg < 0 && ToU32(g.voltageAvg) < p.zeroAlgorithmVol + 50
  {
    hide InFinish, InZero, InSmooth;
    match g.mode {
      case ModeFinish => FinishModeMeans(p, g, t);
      case ModeZero => ZeroModeMeans(p, g, t);
      case ModeSmooth => SmoothModeMeans(p, g, t);
    }
  }

  /** Between the two thresholds, under load and with no finish in sight, the mode stays
      what it is: the two algorithms do not alternate. */
  lemma HysteresisBand(p: Params, g: Gauge, t: TickIn)
    requires p.Valid() && g.Valid() && SensibleThreshold(p) && !(g.s2r && !g.sleepChrgOnline)
    requires g.currentAvg < 0 && p.zeroAlgorithmVol <= g.voltageAvg < p.zeroAlgorithmVol + 50
    requires g.mode == ModeZero ==> !Finishing(p, ZeroAlgorithm(p, g, t.zero1, t.zero2), t.exitStatus1, t.exitStatus2)
    requires g.mode == ModeSmooth ==> !Finishing(p, SmoothAlgorithm(g, t.smooth), t.exitStatus1, t.exitStatus2)
    requires g.mode != ModeFinish
    ensures DisplaySmooth(p, g, t).mode == g.mode
  {
    assert !LowVoltage(p, g) && !Recovered(p, g);
    ZeroAlgorithmLowers(p, g, t.zero1, t.zero2);
    SmoothKeepsReadings(g, t.smooth);
    hide ZeroAlgorithm, SmoothAlgorithm, Finishing, ZeroPrepare, SmoothPrepare, ToU32;
  }

  /** The report that goes out is the nearest value between 0 and 100 percent. */
  lemma ClampedNearest(dsoc: int, other: int)
    requires 0 <= other <= FULL
    ensures 0 <= Clamped(dsoc) <= FULL
    ensures Abs(dsoc - Clamped(dsoc)) <= Abs(dsoc - other)
  {
  }

  // ----- sleeping

  /** A suspend leaves the report alone, and zero mode only a drain. */
  lemma SuspendMeans(p: Params, g: Gauge, s: SuspendIn)
    requires g.Valid()
    ensures var h := Suspend(p, g, s);
      && h.dsoc == g.dsoc && h.sleepDischrgSec == g.sleepDischrgSec && !h.s2r && h.currentAvg == s.current
      && (h.mode == ModeZero ==> g.mode == ModeZero && s.current < 0)
      && (g.mode != ModeZero ==> h.mode == g.mode)
      && (s.current > 0 ==> h.sleepChrgOnline)
      && (h.sleepChrgOnline <==> s.current > 0 || ChargeStatus(p, g.(s2r := false), s.status) in {3, 4})
      && (g.mode == ModeZero && s.current >= 0 ==>
            h.mode == if ChargeStatus(p, g.(s2r := false), s.status) == 4 then ModeFinish else ModeSmooth)
  {
    hide ChargeStatus, CounterShare, SmoothSlope;
  }

  /** A sleep on the charger costs nothing: the report and the seconds of discharge are
      after the resume what they were before the suspend. */
  lemma ChargerSleepKeeps(p: Params, g: Gauge, s: SuspendIn, r: ResumeIn)
    requires p.Valid() && g.Valid() && s.current > 0
    ensures var h := Resume(p, Suspend(p, g, s), r);
      h.dsoc == g.dsoc && h.sleepDischrgSec == g.sleepDischrgSec
  {
    SuspendMeans(p, g, s);
    hide Suspend, SleepDischarge, SleepLoss, SleepStart, CDiv;
  }

  predicate SameCounter(g: Gauge, h: Gauge) {
    h.remainCap == g.remainCap && h.sleepDischrgSec == g.sleepDischrgSec
  }

  lemma WaitsKeepCounter(g: Gauge, low: bool, now: nat)
    ensures SameCounter(g, ZeroStarved(g, now)) && SameCounter(g, ExtremeLow(g, low, now))
  {
  }

  lemma CalcKeepsCounter(p: Params, g: Gauge, r: ZeroIn)
    requires p.Valid() && g.Valid()
    ensures SameCounter(g, CalcZeroSlope(p, g, r))
  {
    hide UsableSoc, ZeroSlope, VolToCap, MinGap, Percent, OpenVoltage, ShutdownVoltage, ZeroStarved, ExtremeLow;
    var xsoc := UsableSoc(p, g, r);
    var g1 := g.(zeroOcvCap := VolToCap(OpenVoltage(p, r), p.ocvTable, g.fcc),
                 zeroRemainCap := g.remainCap, zeroTimeoutCnt := 0);
    WaitsKeepCounter(g1, false, r.now);
    var g2 := if xsoc >= 0
              then g1.(zeroDropSec := 0, zeroLinek := ZeroSlope(p, g, xsoc, MinGap(p, g, r.current, xsoc)))
              else ZeroStarved(g1, r.now);
    WaitsKeepCounter(g2, r.voltage < ShutdownVoltage(p, g) - 70, r.now);
  }

  lemma ZeroSlopeKeepsCounter(p: Params, g: Gauge, r: ZeroIn)
    requires p.Valid() && g.Valid()
    ensures SameCounter(g, ZeroPrepare(p, g, r))
  {
    hide CalcZeroSlope, Percent;
    CalcKeepsCounter(p, g, r);
    CalcKeepsCounter(p, g.(zeroDsoc := g.smoothSoc), r);
  }

  lemma SameCount(cap: nat, remain: nat)
    requires cap <= MAX_INT && remain < U32
    ensures ToI32(cap - remain) == 0 <==> cap == remain
    ensures ToU32(cap * 1000) == cap * 1000
  {
  }

  /** The correction from the relaxed voltage never raises the report. It is skipped only
      when the counter, in uAh, is the estimate, in mAh; otherwise it makes the counter
      agree with the estimate. */
  lemma RelaxMeans(p: Params, g: Gauge, r: ResumeIn)
    requires p.Valid() && g.Valid() && g.fcc <= MAX_INT && 0 <= g.remainCap < U32
    ensures var h, cap := RelaxCalibrate(p, g, r), VolToCap(g.voltageRelax, p.ocvTable, g.fcc);
      && h.dsoc <= Max(g.dsoc, 0)
      && h.remainCap == (if g.remainCap == cap then cap else cap * 1000)
  {
    var cap := VolToCap(g.voltageRelax, p.ocvTable, g.fcc);
    CapRange(g.voltageRelax, p.ocvTable, g.fcc);
    SameCount(cap, g.remainCap);
    hide VolToCap, ToI32, ToU32, ZeroPrepare, SmoothSlope;
    var h := SmoothPrepare(InitCoulomb(g, cap), r.prepCurrent);
    ZeroPrepareLowers(p, h, r.prepZero);
    ZeroSlopeKeepsCounter(p, h, r.prepZero);
  }
}

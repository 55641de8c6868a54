// The rules the gauge decides by, in terms of its readings: voltages behind a resistance,
// the reserve and the slopes of zero mode, waiting times, thresholds and charge status.

module GaugeRules {
  import opened Arith
  import opened GaugeArith
  import opened GaugeModel
  import opened GaugeRuns
  import opened GaugeModes

  // ----- voltages

  lemma TruncatedDrop(i: int, res: int)
    ensures -1000 < i * res - 1000 * CDiv(i * res, 1000) < 1000
  {
  }

  lemma DropSign(i: int, res: nat)
    ensures i <= 0 ==> CDiv(i * res, 1000) <= 0
    ensures i >= 0 ==> CDiv(i * res, 1000) >= 0
  {
    if i <= 0 {
      assert i * res <= 0;
    } else {
      assert i * res >= 0;
    }
  }

  /** The voltage drop over the battery's resistance is compensated, at shutdown with 50 more
      in the path: a load lowers the voltage that is read, so what is behind is higher. */
  lemma DropCompensated(p: Params, g: Gauge, r: ZeroIn)
    requires p.batRes >= 0
    ensures -1000 < r.current * p.batRes - 1000 * (r.voltage - OpenVoltage(p, r)) < 1000
    ensures -1000 < r.current * (p.batRes + 50) - 1000 * (ShutdownVoltage(p, g) - DeadVoltage(p, g, r)) < 1000
    ensures r.current <= 0 ==> OpenVoltage(p, r) >= r.voltage && DeadVoltage(p, g, r) >= ShutdownVoltage(p, g)
    ensures r.current >= 0 ==> OpenVoltage(p, r) <= r.voltage && DeadVoltage(p, g, r) <= ShutdownVoltage(p, g)
  {
    hide CDiv, ShutdownVoltage;
    TruncatedDrop(r.current, p.batRes);
    TruncatedDrop(r.current, p.batRes + 50);
    DropSign(r.current, p.batRes);
    DropSign(r.current, p.batRes + 50);
  }

  /** Shutdown is 50 mV early exactly for a light load with six percent or more shown. */
  lemma ShutdownIs(p: Params, g: Gauge)
    ensures ShutdownVoltage(p, g) in {p.pwroffVol, p.pwroffVol + 50}
    ensures ShutdownVoltage(p, g) == p.pwroffVol + 50 <==> -400 < g.currentAvg < 400 && g.dsoc >= 6000
  {
  }

  /** Without a load, charge is usable above the shutdown voltage and missing below it. */
  lemma UsableSign(p: Params, g: Gauge, r: ZeroIn)
    requires p.Valid() && r.current == 0
    requires ValidTable(p.ocvTable) && TopReaches(p.ocvTable) && Capped(TopReading(|p.ocvTable|)) == 1000
    requires 0 <= r.voltage < U31 && 0 <= ShutdownVoltage(p, g) < U31
    ensures r.voltage >= ShutdownVoltage(p, g) ==> UsableSoc(p, g, r) >= 0
    ensures r.voltage <= ShutdownVoltage(p, g) ==> UsableSoc(p, g, r) <= 0
  {
    var v, d := r.voltage, ShutdownVoltage(p, g);
    assert OpenVoltage(p, r) == v && DeadVoltage(p, g, r) == d by {
      hide ShutdownVoltage;
      assert r.current * p.batRes == 0 && r.current * (p.batRes + 50) == 0;
    }
    hide OpenVoltage, DeadVoltage, ShutdownVoltage, VolToSoc, VolToCap, TopReaches, ValidTable, TopReading;
    if v >= d {
      EstimatesMonotone(d, v, p.ocvTable, 0);
    }
    if v <= d {
      EstimatesMonotone(v, d, p.ocvTable, 0);
    }
  }

  /** With the driver's table every entry between the two voltages is worth five percent. */
  lemma UsableIs(p: Params, g: Gauge, r: ZeroIn, i: nat, j: nat)
    requires p.Valid() && |p.ocvTable| == 21 && Increasing(p.ocvTable) && p.ocvTable[20] < U31
    requires forall k :: 0 < k < 21 ==> p.ocvTable[k] - p.ocvTable[k - 1] <= 1310
    requires i <= 20 && j <= 20
    requires OpenVoltage(p, r) == p.ocvTable[i] && DeadVoltage(p, g, r) == p.ocvTable[j]
    ensures UsableSoc(p, g, r) == 5 * i - 5 * j
  {
    hide OpenVoltage, DeadVoltage, VolToSoc, VolToCap;
    EntriesFivePercent(p.ocvTable, i, 0);
    EntriesFivePercent(p.ocvTable, j, 0);
  }

  /** What a slope computation leaves: the estimate from the voltage, and either a slope and
      no wait, or the wait of a starved report; then the cutoff's wait. */
  lemma SlopeComputed(p: Params, g: Gauge, r: ZeroIn)
    requires p.Valid() && g.Valid()
    ensures var h, xsoc := CalcZeroSlope(p, g, r), UsableSoc(p, g, r);
      && h.zeroOcvCap == VolToCap(OpenVoltage(p, r), p.ocvTable, g.fcc)
      && (xsoc >= 0 ==> h.zeroLinek == ZeroSlope(p, g, xsoc, MinGap(p, g, r.current, xsoc)) && h.zeroDropSec == 0)
      && (xsoc < 0 ==> h.zeroLinek == 1000 && h.zeroDropSec == ZeroStarved(g, r.now).zeroDropSec)
      && (r.voltage >= ShutdownVoltage(p, g) - 70 ==>
            h.dsoc == (if xsoc >= 0 then g.dsoc else ZeroStarved(g, r.now).dsoc) && h.shtdDropSec == 0)
      && (r.voltage < ShutdownVoltage(p, g) - 70 && Since(g.shtdDropSec, r.now) > 30 ==> h.dsoc == 0)
  {
    hide UsableSoc, ZeroSlope, VolToCap, MinGap, Percent, OpenVoltage, ShutdownVoltage, ZeroStarved, ExtremeLow;
    var xsoc := UsableSoc(p, g, r);
    var g1 := g.(zeroOcvCap := VolToCap(OpenVoltage(p, r), p.ocvTable, g.fcc),
                 zeroRemainCap := g.remainCap, zeroTimeoutCnt := 0);
    var g2 := if xsoc >= 0
              then g1.(zeroDropSec := 0, zeroLinek := ZeroSlope(p, g, xsoc, MinGap(p, g, r.current, xsoc)))
              else ZeroStarved(g1, r.now);
    StarvedCases(g, g1, r.now);
    ExtremeCases(g2, r.voltage < ShutdownVoltage(p, g) - 70, r.now);
  }

  lemma StarvedCases(g: Gauge, g1: Gauge, now: nat)
    requires g1.dsoc == g.dsoc && g1.zeroDropSec == g.zeroDropSec
    ensures var s, s1 := ZeroStarved(g, now), ZeroStarved(g1, now);
      && s1.dsoc == s.dsoc && s1.zeroDropSec == s.zeroDropSec && s1.zeroLinek == 1000
      && s1.zeroOcvCap == g1.zeroOcvCap && s1.shtdDropSec == g1.shtdDropSec
  {
  }

  lemma ExtremeCases(g: Gauge, low: bool, now: nat)
    ensures var h := ExtremeLow(g, low, now);
      && h.zeroOcvCap == g.zeroOcvCap && h.zeroLinek == g.zeroLinek && h.zeroDropSec == g.zeroDropSec
      && (!low ==> h.dsoc == g.dsoc && h.shtdDropSec == 0)
      && (low && Since(g.shtdDropSec, now) > 30 ==> h.dsoc == 0)
  {
  }

  // ----- the reserve and the slopes of zero mode

  /** Kept in hand: 3 percent above 1400 mA, 5 above 600 mA, else 10; and 5 more when at most
      30 are usable and the report is at the reserve or above. A heavier load never keeps
      more. */
  lemma ReserveIs(p: Params, g: Gauge, current: int, xsoc: int)
    ensures var extra := if xsoc <= 30 && ToU32(g.dsoc) >= p.zeroReserveDsoc then 5 else 0;
      var kept := MinGap(p, g, current, xsoc) - extra;
      && (kept == 3 <==> current > 1400 || current < -1400)
      && (kept == 5 <==> 600 < current <= 1400 || -1400 <= current < -600)
      && (kept == 10 <==> -600 <= current <= 600)
    ensures forall heavier: int :: Abs(heavier) >= Abs(current) ==>
              MinGap(p, g, heavier, xsoc) <= MinGap(p, g, current, xsoc)
  {
    hide ToU32;
  }

  /** Usable percents beyond those shown. */
  function Room(g: Gauge, xsoc: int): int {
    xsoc - Percent(g.dsoc)
  }

  /** Enough room to slow down. */
  predicate Wide(g: Gauge, xsoc: int, gap: int) {
    Room(g, xsoc) >= gap || (Room(g, xsoc) >= 5 && Percent(g.dsoc) <= 10 && xsoc > 15)
  }

  /** The slope at which report and usable charge end together. */
  function Proportional(g: Gauge, xsoc: nat): int {
    if xsoc == 0 then g.zeroDsoc else CDiv(g.zeroDsoc + xsoc / 2, xsoc)
  }

  /** With much room the report slows down, the more the wider it is: to 400 from twice the
      reserve, to 600 from three percent more than it, else to 800. */
  lemma WideSlope(p: Params, g: Gauge, xsoc: nat, gap: nat)
    requires Percent(g.dsoc) > 1 && Wide(g, xsoc, gap) && !p.energyMode
    requires xsoc > 20 || ToU32(Percent(g.dsoc)) < p.zeroReserveDsoc
    ensures var k, room := ZeroSlope(p, g, xsoc, gap), Room(g, xsoc);
      && (k == 400 <==> room >= 2 * gap)
      && (k == 600 <==> gap + 3 <= room < 2 * gap)
      && (k == 800 <==> room < 2 * gap && room < gap + 3)
      && k in {400, 600, 800}
  {
    hide CDiv, ToU32, Abs;
  }

  /** With little room the report keeps up: the slope is the proportional one, but at least
      1200 in the last fifteen percent, and above that no more than 1800 from 70 percent and
      at least 1200 unless it is exactly 1000. */
  lemma NarrowSlope(p: Params, g: Gauge, xsoc: nat, gap: nat)
    requires Percent(g.dsoc) > 1 && !Wide(g, xsoc, gap) && !p.energyMode
    ensures var k, c, shown := ZeroSlope(p, g, xsoc, gap), Proportional(g, xsoc), Percent(g.dsoc);
      && (shown <= 15 ==> k == Max(c, 1200))
      && (15 < shown <= 70 ==> k == if c == 1000 then 1000 else Max(c, 1200))
      && (shown > 70 ==> k == if c == 1000 then 1000 else if c > 1800 then 1800 else Max(c, 1200))
  {
    hide ToU32;
    assert Percent(g.dsoc) > 1 ==> g.dsoc > 5;
    hide Abs, CDiv;
  }

  /** In the last two percents the slope is 400 while any charge is usable. */
  lemma LastPercentSlope(p: Params, g: Gauge, xsoc: nat, gap: int)
    requires Percent(g.dsoc) <= 1 && xsoc > 0
    ensures ZeroSlope(p, g, xsoc, gap) == 400
  {
    hide CDiv, ToU32, Abs;
  }

  /** Energy mode slows to no less than 300 near the end. */
  lemma EnergySlope(p: Params, g: Gauge, xsoc: nat, gap: int)
    requires p.energyMode && 1 < Percent(g.dsoc) <= 10 && Room(g, xsoc) >= 3
    ensures Proportional(g, xsoc) < 300 <==> ZeroSlope(p, g, xsoc, gap) == 300
  {
    hide CDiv, ToU32, Abs;
  }

  // ----- waiting times

  /** Starved at two times: the report loses a percent exactly when they are fifteen seconds
      apart, and then waits anew. */
  lemma StarvedWaits(g: Gauge, t0: nat, t1: nat)
    requires g.zeroDropSec == 0 && 0 < t0 <= t1
    ensures var h := ZeroStarved(g, t0);
      && h.dsoc == g.dsoc && h.zeroDropSec == t0
      && ZeroStarved(h, t1).dsoc == (if t1 - t0 >= 15 then Max(0, g.dsoc - 1000) else g.dsoc)
      && ZeroStarved(h, t1).zeroDropSec == (if t1 - t0 >= 15 then 0 else t0)
      && (t1 - t0 >= 15 ==> ZeroStarved(h, t1).zeroDsoc == ZeroStarved(h, t1).dsoc)
      && ZeroStarved(h, t1).zeroLinek == 1000
  {
  }

  /** Extremely low at two times: empty exactly when they are more than thirty seconds apart
      and the voltage has not recovered between them. */
  lemma ExtremeLowWaits(g: Gauge, between: bool, t0: nat, t1: nat)
    requires g.shtdDropSec == 0 && 0 < t0 <= t1 && g.dsoc != 0
    ensures var h := ExtremeLow(g, true, t0);
      var m := if between then ExtremeLow(h, false, t0) else h;
      && h.dsoc == g.dsoc
      && (ExtremeLow(m, true, t1).dsoc == 0 <==> !between && t1 - t0 > 30)
      && (ExtremeLow(m, true, t1).dsoc != 0 ==> ExtremeLow(m, true, t1).dsoc == g.dsoc)
  {
  }

  /** Under load below the power-off voltage at two times: after more than a minute the
      charger looks unplugged, and the report loses a percent if the voltage is 50 mV lower. */
  lemma LowPowerWaits(p: Params, g: Gauge, t0: nat, t1: nat)
    requires g.lowPwrTime == 0 && 0 < t0 <= t1
    requires g.currentAvg < 0 && g.voltageAvg < p.pwroffVol
    ensures var h := LowPowerCheck(p, g, t0);
      && h.dsoc == g.dsoc && h.fakeOffline == g.fakeOffline
      && LowPowerCheck(p, h, t1).fakeOffline == (g.fakeOffline || t1 - t0 > 60)
      && LowPowerCheck(p, h, t1).dsoc
         == (if t1 - t0 > 60 && g.voltageAvg <= p.pwroffVol - 50 then g.dsoc - 1000 else g.dsoc)
  {
  }

  lemma LowPowerEnds(p: Params, g: Gauge, now: nat)
    requires g.currentAvg >= 0 || g.voltageAvg >= p.pwroffVol
    ensures var h := LowPowerCheck(p, g, now); h.dsoc == g.dsoc && !h.fakeOffline && h.lowPwrTime == 0
  {
  }

  // ----- thresholds

  /** When the mode changes, in millivolts: into zero mode below the threshold under load, out
      of it 50 mV above or without load. */
  lemma ThresholdsIff(p: Params, g: Gauge, t: TickIn)
    requires p.Valid() && g.Valid() && SensibleThreshold(p) && !(g.s2r && !g.sleepChrgOnline)
    requires 0 <= g.voltageAvg < U31
    ensures var h, v := DisplaySmooth(p, g, t), p.zeroAlgorithmVol;
      && (g.mode == ModeSmooth ==> (h.mode == ModeZero <==> g.currentAvg < 0 && g.voltageAvg < v))
      && (g.mode == ModeZero ==> (h.mode == ModeSmooth <==> g.currentAvg >= 0 || g.voltageAvg >= v + 50))
      && (g.mode == ModeFinish && h.mode == ModeZero ==> g.currentAvg < 0 && g.voltageAvg < v)
  {
    assert LowVoltage(p, g) <==> g.currentAvg < 0 && g.voltageAvg < p.zeroAlgorithmVol;
    assert Recovered(p, g) <==> g.currentAvg >= 0 || g.voltageAvg >= p.zeroAlgorithmVol + 50;
    hide InFinish, InZero, InSmooth, LowVoltage, Recovered;
    match g.mode {
      case ModeFinish => FinishModeMeans(p, g, t);
      case ModeZero => ZeroModeMeans(p, g, t);
      case ModeSmooth => SmoothModeMeans(p, g, t);
    }
  }

  /** The first tick after a resume without charger restarts both algorithms in the same
      mode, and does not raise the report. */
  lemma ResetMeans(p: Params, g: Gauge, t: TickIn)
    requires p.Valid() && g.Valid() && g.s2r && !g.sleepChrgOnline
    ensures var h := DisplaySmooth(p, g, t);
      h.mode == g.mode && !h.s2r && h.smoothSoc == h.dsoc && h.dsoc <= Max(g.dsoc, 0)
  {
    hide ZeroPrepare, SmoothSlope;
    ZeroPrepareLowers(p, g.(s2r := false), t.prepZero);
  }

  // ----- charge status

  /** When the charge counts as finished: on the RK817 by the register, or a full counter in
      the constant phase; on the RK809 by voltage and current. */
  lemma FinishedIff(p: Params, g: Gauge, reg: int)
    requires 0 <= g.voltageAvg < U32 && 0 <= p.designMaxVoltage < U32
    ensures !p.isRk809 ==>
              (ChargeStatus(p, g, reg) == CHARGE_FINISH <==> reg == 4 || (reg == 3 && g.rsoc == 100000))
              && (ChargeStatus(p, g, reg) != CHARGE_FINISH ==> ChargeStatus(p, g, reg) == reg)
    ensures p.isRk809 ==>
              (ChargeStatus(p, g, reg) == CHARGE_FINISH <==>
                 && g.voltageAvg > p.designMaxVoltage
                 && (0 < g.currentAvg < 500 || (g.currentAvg > 0 && 100000 <= g.rsoc < 101000)))
              && (ChargeStatus(p, g, reg) == CC_OR_CV_CHRG ==> g.pluggedIn)
  {
  }

  /** When a charge looks finished on the RK817: by the register, by a full counter in the
      constant phase, or by a trickle in that phase with the counter at 100. */
  lemma FinishingIff(p: Params, g: Gauge, reg1: int, reg2: int)
    requires !p.isRk809
    ensures Finishing(p, g, reg1, reg2) <==>
              reg1 == 4 || (reg1 == 3 && g.rsoc == 100000) || (g.rsoc == 100 && reg2 == 3 && -100 <= g.currentAvg <= 100)
  {
    hide ToU32, Percent;
  }

  /** A drain of more than 100 mA on the RK809 is never taken for a finished charge. */
  lemma DrainNotFinishing(p: Params, g: Gauge, reg1: int, reg2: int)
    requires p.isRk809 && g.currentAvg < -100
    ensures !Finishing(p, g, reg1, reg2)
  {
    hide ToU32, Percent;
  }

  /** So on that chip a drain needs no other condition for the report never to rise. */
  lemma Rk809NeverRises(p: Params, g: Gauge, t: TickIn)
    requires p.Valid() && g.Valid() && p.isRk809 && g.mode != ModeFinish && 0 <= g.dsoc <= FULL
    requires t.current < -100 && t.smooth.turnCurrent < 0
    ensures 0 <= Tick(p, g, t).dsoc <= g.dsoc && Tick(p, g, t).mode != ModeFinish
  {
    MeasuredKeeps(p, g, t);
    var m := Measured(p, g, t);
    hide Measured, ZeroAlgorithm, SmoothAlgorithm, Finishing, Tick, DisplaySmooth;
    ZeroAlgorithmLowers(p, m, t.zero1, t.zero2);
    SmoothKeepsReadings(m, t.smooth);
    DrainNotFinishing(p, ZeroAlgorithm(p, m, t.zero1, t.zero2), t.exitStatus1, t.exitStatus2);
    DrainNotFinishing(p, SmoothAlgorithm(m, t.smooth), t.exitStatus1, t.exitStatus2);
    TickNeverRises(p, g, t);
  }

  /** The time a finished charge is counted from is that of the last reading that found it
      unfinished. */
  lemma FinishBaseIs(p: Params, g: Gauge, t: TickIn)
    requires g.Valid()
    ensures UpdateInfo(p, g, t).finishBase
         == if ChargeStatus(p, Metered(g, t), t.infoStatus) == 4 then g.finishBase else t.now
  {
    hide ChargeStatus, CounterShare;
    var m := Metered(g, t);
    SeedKeepsBase(m.(smRemainCap := g.fcc * 1000), g.fcc + 100);
    SeedKeepsBase(InitCoulomb(m.(smRemainCap := g.fcc * 1000), g.fcc + 100), g.fcc);
    hide InitCoulomb;
  }

  lemma SeedKeepsBase(g: Gauge, cap: int)
    requires g.fcc > 0
    ensures InitCoulomb(g, cap).finishBase == g.finishBase
  {
    hide ToI32, ToU32;
  }

  // ----- finishing

  /** A percent takes the time in which 1000 mA, or 1500 mA when the report lags, charge a
      hundredth of the full capacity. */
  lemma PerPercentIs(g: Gauge)
    requires g.Valid()
    ensures var i := if g.rsoc - g.dsoc > 20 then 1500 else 1000;
      PerPercent(g) * i <= g.fcc * 36 < (PerPercent(g) + 1) * i
  {
  }

  /** Catching up loses no time: the percents gained and the stretch still open make up the
      time since the charge finished, and no more than a percent's worth is left open. */
  lemma CatchUpConserves(g: Gauge, now: nat)
    requires g.Valid() && 0 < g.finishBase <= now
    ensures var h, per := CaughtUp(g, now), PerPercent(g);
      var gained := (h.dsoc - g.dsoc) / 1000;
      && gained >= 0 && h.dsoc == g.dsoc + gained * 1000
      && 0 < h.finishBase <= now
      && gained * per + (now - h.finishBase) == now - g.finishBase
      && now - h.finishBase <= per
  {
    var sec, per := now - g.finishBase, PerPercent(g);
    var q, m := sec / per, sec % per;
    hide PerPercent;
    Split(sec, per);
    assert sec > per ==> CaughtUp(g, now) == g.(dsoc := g.dsoc + q * 1000, finishBase := now - m);
    assert sec <= per ==> CaughtUp(g, now) == g;
    hide CaughtUp;
    assert q * 1000 / 1000 == q;
  }

  lemma Split(x: nat, k: nat)
    requires k > 0
    ensures 0 <= x / k && 0 <= x % k < k && x == x / k * k + x % k
  {
    DivBelow(x, 0, k);
  }

  /** A charge that is finished shows full at once, where seeding reads as full. */
  lemma FinishedShowsFull(p: Params, g: Gauge, reg: int, now: nat)
    requires g.Valid() && g.fcc <= MAX_SEED
    requires ChargeStatus(p, g, reg) == CHARGE_FINISH && ToU32(g.remainCap) != g.fcc
    ensures FinishAlgorithm(p, g, reg, now).dsoc >= FULL && FinishAlgorithm(p, g, reg, now).rsoc == FULL
  {
    var g1 := InitCoulomb(g, g.fcc);
    SeededFullIff(g);
    CoulombKeeps(g, g.fcc);
    CaughtUpRaises(g1, now);
    hide ChargeStatus, InitCoulomb, ToU32, PerPercent;
  }

  // ----- the counter

  /** A counter reads as its share of the full capacity, rounded down, and full for all of
      it, wherever it is read. */
  lemma CounterShareIs(cap: nat, fcc: int)
    requires fcc >= MIN_FCC
    ensures var q := CounterShare(cap, fcc); q * fcc <= cap * 100 < (q + 1) * fcc
    ensures CounterShare(fcc * 1000, fcc) == FULL
  {
    var x, q := cap * 100, cap * 100 / fcc;
    DivBelow(x, q, fcc);
    DivBelow(x, q + 1, fcc);
    DivModOf(FULL, fcc, 0);
    assert fcc * 1000 * 100 == FULL * fcc;
  }

  /** What the tick, the suspend and the resume read. */
  lemma ReadingsTaken(p: Params, g: Gauge, t: TickIn, s: SuspendIn, r: ResumeIn)
    requires g.Valid()
    ensures var h := Metered(g, t);
      h.voltageAvg == t.voltage && h.currentAvg == t.current && h.remainCap == t.cap
      && h.rsoc == CounterShare(t.rsocCap, g.fcc)
    ensures var h := Suspend(p, g, s);
      h.currentAvg == s.current && h.remainCap == s.cap && h.rsoc == CounterShare(s.rsocCap, g.fcc)
    ensures var h := Woken(g, r);
      h.voltageAvg == r.voltage && h.voltageRelax == r.relax && h.currentAvg == r.current
      && h.remainCap == r.cap && h.rsoc == CounterShare(r.rsocCap, g.fcc) && h.s2r
  {
    hide CounterShare, ChargeStatus, SmoothSlope;
  }

  /** A counter within the full capacity is left alone, and one above it reads full. */
  lemma CappedIff(g: Gauge)
    requires g.Valid() && g.fcc <= MAX_SEED
    ensures g.remainCap < (g.fcc + 1) * 1000 ==> CounterCapped(g) == g
    ensures g.remainCap >= (g.fcc + 1) * 1000 ==>
              var h := CounterCapped(g);
              h.remainCap == h.smRemainCap == g.fcc * 1000 && h.rsoc == FULL
  {
    assert g.remainCap / 1000 > g.fcc <==> g.remainCap >= (g.fcc + 1) * 1000;
    var g1 := InitCoulomb(g.(smRemainCap := g.fcc * 1000), g.fcc + 100);
    CoulombTouches(g.(smRemainCap := g.fcc * 1000), g.fcc + 100);
    CoulombTouches(g1, g.fcc);
    SeededShare(g1, g.fcc);
    hide InitCoulomb;
  }

  lemma CoulombTouches(g: Gauge, cap: int)
    requires g.fcc > 0
    ensures InitCoulomb(g, cap).smRemainCap == g.smRemainCap && InitCoulomb(g, cap).fcc == g.fcc
  {
    hide ToI32, ToU32;
  }
}

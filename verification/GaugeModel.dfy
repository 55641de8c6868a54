// The RK817 fuel gauge as functions on its state: what each algorithm does to the
// reported charge (dsoc, in thousandths of a percent) and to the bookkeeping behind it.
// Register and clock readings are inputs; each call that reads has its own.

module GaugeModel {
  import opened GaugeArith

  const FULL: int := 100000
  const MIN_FCC: int := 500
  const CC_OR_CV_CHRG: int := 3
  const CHARGE_FINISH: int := 4

  datatype Mode = ModeZero | ModeFinish | ModeSmooth

  /** Platform data, and the chip variant. */
  datatype Params = Params(
    pwroffVol: int, zeroAlgorithmVol: int, zeroReserveDsoc: nat, energyMode: bool,
    designMaxVoltage: int, lowPwrSleep: bool, batRes: int, isRk809: bool, ocvTable: seq<nat>
  ) {
    predicate Valid() {
      2 <= |ocvTable| <= 255
    }
  }

  datatype Gauge = Gauge(
    dsoc: int, rsoc: int, fcc: int, mode: Mode,
    currentAvg: int, voltageAvg: int, voltageRelax: int, remainCap: int,
    smoothSoc: int, smLinek: int, smRemainCap: int,
    zeroDsoc: int, zeroLinek: int, zeroRemainCap: int, zeroTimeoutCnt: int,
    zeroDropSec: nat, shtdDropSec: nat, zeroOcvCap: int,
    lowPwrTime: nat, fakeOffline: bool, finishBase: nat, pluggedIn: bool,
    s2r: bool, sleepChrgOnline: bool, sleepDischrgSec: nat
  ) {
    /** get_fcc never hands out less than MIN_FCC unless the design capacity is less. */
    predicate Valid() {
      MIN_FCC <= fcc < U32
    }
  }

  /** base2sec: seconds since a non-zero base. */
  function Since(base: nat, now: nat): nat {
    if base == 0 || now <= base then 0 else now - base
  }

  function Percent(soc: int): int {
    CDiv(soc, 1000)
  }

  /** A coulomb counter of `cap` uAh in thousandths of a percent of the full capacity. */
  function CounterShare(cap: nat, fcc: int): int
    requires fcc > 0
  {
    CDiv(cap * 100, fcc)
  }

  // ----- charge status

  function ChargeStatus(p: Params, g: Gauge, reg: int): int {
    if p.isRk809 then
      if ToU32(g.voltageAvg) > ToU32(p.designMaxVoltage) && g.currentAvg > 0
         && (g.currentAvg < 500 || Percent(g.rsoc) == 100) then CHARGE_FINISH
      else if g.pluggedIn then CC_OR_CV_CHRG else 0
    else if reg == CC_OR_CV_CHRG && g.rsoc == FULL then CHARGE_FINISH
    else reg
  }

  predicate FakeFinish(p: Params, g: Gauge, reg: int) {
    g.rsoc == 100 && ChargeStatus(p, g, reg) == CC_OR_CV_CHRG && Abs(g.currentAvg) <= 100
  }

  /** The condition for entering or staying in finish mode; each half reads the status. */
  predicate Finishing(p: Params, g: Gauge, reg1: int, reg2: int) {
    ChargeStatus(p, g, reg1) == CHARGE_FINISH || FakeFinish(p, g, reg2)
  }

  /** Re-seed the coulomb counter with `cap` mAh. */
  function InitCoulomb(g: Gauge, cap: int): (g': Gauge)
    requires g.fcc > 0
    ensures g'.fcc == g.fcc
  {
    g.(rsoc := ToI32(ToU32(cap * 1000 * 100) / g.fcc), remainCap := ToU32(cap * 1000))
  }

  // ----- smooth algorithm

  /** The slope: a quarter slower away from the true charge, a third faster towards it. */
  function SmoothSlope(dsoc: int, rsoc: int, current: int): int {
    var delta := Abs(dsoc - rsoc);
    var diff := delta * 3;
    if current > 0 then
      if dsoc < rsoc then CDiv(1000 * (delta + diff), NonZero(diff))
      else if dsoc > rsoc then CDiv(1000 * diff, NonZero(delta + diff))
      else 1000
    else
      if dsoc < rsoc then CDiv(-1000 * diff, NonZero(delta + diff))
      else if dsoc > rsoc then CDiv(-1000 * (delta + diff), NonZero(diff))
      else -1000
  }

  function CalcSmoothSlope(g: Gauge, current: int): (g': Gauge)
    ensures g'.fcc == g.fcc
  {
    g.(smLinek := SmoothSlope(g.dsoc, g.rsoc, current), smRemainCap := g.remainCap)
  }

  function SmoothPrepare(g: Gauge, current: int): (g': Gauge)
    ensures g'.fcc == g.fcc
  {
    CalcSmoothSlope(g.(smoothSoc := g.dsoc), current)
  }

  /** Thousandths of a percent that a change of capacity (uAh) is worth. */
  function SmoothChange(linek: int, fcc: int, delta: int): int
    requires fcc > 0
  {
    CDiv(linek * Abs(CDiv(delta, 10)), fcc)
  }

  /** The report follows the smoothed charge down, by whole percents, at most one at once. */
  function FollowDown(smooth: int, dsoc: int): int {
    if Percent(smooth) == Percent(dsoc) || smooth > dsoc then dsoc
    else Max(0, Max(smooth, dsoc - 1000))
  }

  /** And straight up. */
  function FollowUp(smooth: int, dsoc: int): int {
    if Percent(smooth) == Percent(dsoc) || smooth < dsoc then dsoc else Max(0, smooth)
  }

  /** Readings of one smooth step: the capacity, and the current for either slope. */
  datatype SmoothIn = SmoothIn(cap: int, turnCurrent: int, s2rCurrent: int)

  function TurnSlope(g: Gauge, current: int): (g': Gauge)
    ensures g'.fcc == g.fcc
  {
    if g.smLinek * g.currentAvg <= 0 then CalcSmoothSlope(g, current) else g
  }

  /** Count a change: the smoothed charge takes it, and the report follows. */
  function CountChange(g: Gauge, change: int, current: int): (g': Gauge)
    ensures g'.fcc == g.fcc
  {
    var smooth := Max(0, g.smoothSoc + change);
    var g2 := g.(smRemainCap := g.remainCap, smoothSoc := smooth,
                 dsoc := if change < 0 then FollowDown(smooth, g.dsoc) else FollowUp(smooth, g.dsoc));
    if change > 0 && Percent(smooth) != Percent(g.dsoc) && smooth < g.dsoc then g2
    else if g2.s2r then CalcSmoothSlope(g2.(s2r := false), current)
    else g2
  }

  function SmoothAlgorithm(g: Gauge, r: SmoothIn): (g': Gauge)
    requires g.Valid()
    ensures g'.fcc == g.fcc
  {
    var g1 := TurnSlope(g, r.turnCurrent).(remainCap := r.cap);
    var change := SmoothChange(g1.smLinek, g1.fcc, g1.remainCap - g1.smRemainCap);
    if change == 0 then g1 else CountChange(g1, change, r.s2rCurrent)
  }

  // ----- zero algorithm

  /** Readings of one slope computation in zero mode. */
  datatype ZeroIn = ZeroIn(voltage: int, current: int, now: nat)

  function ShutdownVoltage(p: Params, g: Gauge): int {
    if Abs(g.currentAvg) < 400 && Percent(g.dsoc) > 5 then p.pwroffVol + 50 else p.pwroffVol
  }

  /** Voltages behind the resistances, now and at shutdown. */
  function OpenVoltage(p: Params, r: ZeroIn): int {
    r.voltage - CDiv(r.current * p.batRes, 1000)
  }

  function DeadVoltage(p: Params, g: Gauge, r: ZeroIn): int {
    ShutdownVoltage(p, g) - CDiv(r.current * (p.batRes + 50), 1000)
  }

  /** Percent still usable before shutdown. */
  function UsableSoc(p: Params, g: Gauge, r: ZeroIn): int
    requires p.Valid()
  {
    VolToSoc(OpenVoltage(p, r), p.ocvTable) - VolToSoc(DeadVoltage(p, g, r), p.ocvTable)
  }

  function MinGap(p: Params, g: Gauge, current: int, xsoc: int): int {
    (if Abs(current) > 1400 then 3 else if Abs(current) > 600 then 5 else 10)
    + (if xsoc <= 30 && ToU32(g.dsoc) >= p.zeroReserveDsoc then 5 else 0)
  }

  /** The slope in zero mode when some charge is usable. */
  function ZeroSlope(p: Params, g: Gauge, xsoc: int, gap: int): int
    requires xsoc >= 0
  {
    var pct := Percent(g.dsoc);
    var room := xsoc - pct;
    var linek := CDiv(g.zeroDsoc + xsoc / 2, NonZero(xsoc));
    if pct <= 1 && xsoc > 0 then 400
    else if p.energyMode && room >= 3 && pct <= 10 && linek < 300 then 300
    else if room >= gap || (room >= 5 && pct <= 10 && xsoc > 15) then
      if xsoc <= 20 && ToU32(pct) >= p.zeroReserveDsoc then 1200
      else if room >= 2 * gap then 400
      else if room >= 3 + gap then 600
      else 800
    else if linek > 1800 && pct > 70 then 1800
    else if 1000 < linek < 1200 then 1200
    else if pct <= 15 && g.dsoc > 5 && linek <= 1200 then (if room >= gap then 800 else 1200)
    else if linek < 1000 && pct >= 5 then
      if room < gap then 1200 else if Abs(g.currentAvg) > 500 then 900 else 1000
    else if linek < 1000 && pct <= 5 then (if room <= 3 then 1200 else 800)
    else linek
  }

  /** No usable charge: after 15 seconds of it the report loses a percent. */
  function ZeroStarved(g: Gauge, now: nat): (g': Gauge)
    ensures g'.fcc == g.fcc
  {
    var base := if g.zeroDropSec == 0 then now else g.zeroDropSec;
    var g1 := g.(zeroLinek := 1000, zeroDropSec := base);
    if Since(base, now) >= 15 then
      var d := Max(0, g.dsoc - 1000);
      g1.(zeroDropSec := 0, dsoc := d, zeroDsoc := d)
    else g1
  }

  /** Far below the shutdown voltage for more than 30 seconds: report empty. */
  function ExtremeLow(g: Gauge, low: bool, now: nat): (g': Gauge)
    ensures g'.fcc == g.fcc
  {
    if low then
      var base := if g.shtdDropSec == 0 then now else g.shtdDropSec;
      if Since(base, now) > 30 then g.(shtdDropSec := 0, dsoc := 0) else g.(shtdDropSec := base)
    else g.(shtdDropSec := 0)
  }

  function CalcZeroSlope(p: Params, g: Gauge, r: ZeroIn): (g': Gauge)
    requires p.Valid() && g.Valid()
    ensures g'.fcc == g.fcc
  {
    var xsoc := UsableSoc(p, g, r);
    var g1 := g.(zeroOcvCap := VolToCap(OpenVoltage(p, r), p.ocvTable, g.fcc),
                 zeroRemainCap := g.remainCap, zeroTimeoutCnt := 0);
    var g2 := if xsoc >= 0
              then g1.(zeroDropSec := 0, zeroLinek := ZeroSlope(p, g, xsoc, MinGap(p, g, r.current, xsoc)))
              else ZeroStarved(g1, r.now);
    ExtremeLow(g2, r.voltage < ShutdownVoltage(p, g) - 70, r.now)
  }

  function ZeroPrepare(p: Params, g: Gauge, r: ZeroIn): (g': Gauge)
    requires p.Valid() && g.Valid()
    ensures g'.fcc == g.fcc
  {
    CalcZeroSlope(p, if Percent(g.zeroDsoc) != Percent(g.smoothSoc) then g.(zeroDsoc := g.smoothSoc) else g, r)
  }

  /** The report follows the zero-mode charge down, by whole percents, at most one at once. */
  function FollowZero(zero: int, dsoc: int): int {
    if Percent(zero) == Percent(dsoc) || zero > dsoc then dsoc else Max(zero, dsoc - 1000)
  }

  function ZeroChange(g: Gauge): int
    requires g.Valid()
  {
    CDiv(CDiv(g.zeroLinek * (g.zeroRemainCap - g.remainCap), g.fcc), 10)
  }

  function ZeroUpdate(p: Params, g: Gauge, r: ZeroIn): (g': Gauge)
    requires p.Valid() && g.Valid()
    ensures g'.fcc == g.fcc
  {
    var zero := g.zeroDsoc - ZeroChange(g);
    CalcZeroSlope(p, g.(zeroTimeoutCnt := 0, zeroDsoc := zero, dsoc := FollowZero(zero, g.dsoc)), r)
  }

  function ZeroAlgorithm(p: Params, g: Gauge, r1: ZeroIn, r2: ZeroIn): (g': Gauge)
    requires p.Valid() && g.Valid()
    ensures g'.fcc == g.fcc
  {
    var g1 := g.(zeroTimeoutCnt := g.zeroTimeoutCnt + 1);
    var g2 := if ZeroChange(g1) >= 10 || g1.zeroTimeoutCnt > 100 || g1.zeroLinek == 0
              then ZeroUpdate(p, g1, r1) else g1;
    if Percent(g2.rsoc) < 1 && g2.zeroOcvCap > g2.fcc / 100
    then CalcZeroSlope(p, InitCoulomb(g2, g2.zeroOcvCap), r2)
    else g2
  }

  // ----- finish algorithm

  /** Seconds a percent takes at the finish current. */
  function PerPercent(g: Gauge): (sec: nat)
    requires g.Valid()
    ensures sec > 0
  {
    g.fcc * 3600 / 100 / (if g.rsoc - g.dsoc > 20 then 1500 else 1000)
  }

  /** A percent for every such time since the charge finished; what is left over counts on. */
  function CaughtUp(g: Gauge, now: nat): (g': Gauge)
    requires g.Valid()
    ensures g'.fcc == g.fcc
  {
    var base := if g.finishBase == 0 then now else g.finishBase;
    var sec := Since(base, now);
    var per := PerPercent(g);
    if sec > per then
      g.(dsoc := g.dsoc + sec / per * 1000,
         finishBase := if now > sec % per then now - sec % per else now)
    else g.(finishBase := base)
  }

  /** Charging has ended: the report catches up with the clock, and is full at once when
      the true charge is. */
  function FinishAlgorithm(p: Params, g: Gauge, reg: int, now: nat): (g': Gauge)
    requires g.Valid()
    ensures g'.fcc == g.fcc
  {
    var g1 := if ToU32(g.remainCap) != g.fcc && ChargeStatus(p, g, reg) == CHARGE_FINISH
              then InitCoulomb(g, g.fcc) else g;
    if g1.dsoc >= FULL then g1
    else
      var g2 := CaughtUp(g1, now);
      if Percent(g2.rsoc) == 100 && g2.dsoc < FULL then g2.(dsoc := FULL) else g2
  }

  // ----- one tick

  datatype TickIn = TickIn(
    voltage: int, current: int, rsocCap: nat, cap: nat, infoStatus: int, now: nat,
    smooth: SmoothIn, zero1: ZeroIn, zero2: ZeroIn, prepZero: ZeroIn, prepCurrent: int,
    finishStatus: int, exitStatus1: int, exitStatus2: int
  )

  /** What the periodic work reads. */
  function Metered(g: Gauge, t: TickIn): (g': Gauge)
    requires g.Valid()
    ensures g'.fcc == g.fcc
  {
    g.(voltageAvg := t.voltage, currentAvg := t.current, rsoc := CounterShare(t.rsocCap, g.fcc), remainCap := t.cap)
  }

  /** A coulomb counter above the full capacity is set back to it. */
  function CounterCapped(g: Gauge): (g': Gauge)
    requires g.Valid()
    ensures g'.fcc == g.fcc
  {
    if g.remainCap / 1000 > g.fcc
    then InitCoulomb(InitCoulomb(g.(smRemainCap := g.fcc * 1000), g.fcc + 100), g.fcc) else g
  }

  function UpdateInfo(p: Params, g: Gauge, t: TickIn): (g': Gauge)
    requires g.Valid()
    ensures g'.fcc == g.fcc
  {
    var g1 := Metered(g, t);
    var g2 := CounterCapped(g1);
    if ChargeStatus(p, g1, t.infoStatus) != CHARGE_FINISH then g2.(finishBase := t.now) else g2
  }

  /** Under load below the power-off voltage for more than a minute: look unplugged, and
      lose a percent each tick if the voltage is lower still. */
  function LowPowerCheck(p: Params, g: Gauge, now: nat): (g': Gauge)
    ensures g'.fcc == g.fcc
  {
    if g.currentAvg < 0 && g.voltageAvg < p.pwroffVol then
      var base := if g.lowPwrTime == 0 then now else g.lowPwrTime;
      var g1 := g.(lowPwrTime := base);
      if Since(base, now) > 60 then
        g1.(fakeOffline := true, dsoc := if g.voltageAvg <= p.pwroffVol - 50 then g.dsoc - 1000 else g.dsoc)
      else g1
    else g.(lowPwrTime := 0, fakeOffline := false)
  }

  predicate LowVoltage(p: Params, g: Gauge) {
    g.currentAvg < 0 && ToU32(g.voltageAvg) < ToU32(p.zeroAlgorithmVol)
  }

  predicate Recovered(p: Params, g: Gauge) {
    ToU32(g.voltageAvg) >= ToU32(p.zeroAlgorithmVol + 50) || g.currentAvg >= 0
  }

  function EnterFinish(g: Gauge, now: nat): (g': Gauge)
    ensures g'.fcc == g.fcc
  {
    g.(finishBase := if now == 0 then 1 else now, mode := ModeFinish)
  }

  function InFinish(p: Params, g: Gauge, t: TickIn): (g': Gauge)
    requires p.Valid() && g.Valid()
    ensures g'.fcc == g.fcc
  {
    var g1 := FinishAlgorithm(p, g, t.finishStatus, t.now);
    if Finishing(p, g1, t.exitStatus1, t.exitStatus2) then g1
    else if LowVoltage(p, g1) then ZeroPrepare(p, g1, t.prepZero).(mode := ModeZero)
    else SmoothPrepare(g1, t.prepCurrent).(mode := ModeSmooth)
  }

  function InZero(p: Params, g: Gauge, t: TickIn): (g': Gauge)
    requires p.Valid() && g.Valid()
    ensures g'.fcc == g.fcc
  {
    var g1 := ZeroAlgorithm(p, g, t.zero1, t.zero2);
    if Recovered(p, g1) then SmoothPrepare(g1, t.prepCurrent).(mode := ModeSmooth)
    else if Finishing(p, g1, t.exitStatus1, t.exitStatus2) then EnterFinish(g1, t.now)
    else g1
  }

  function InSmooth(p: Params, g: Gauge, t: TickIn): (g': Gauge)
    requires p.Valid() && g.Valid()
    ensures g'.fcc == g.fcc
  {
    var g1 := SmoothAlgorithm(g, t.smooth);
    if LowVoltage(p, g1) then ZeroPrepare(p, g1, t.prepZero).(mode := ModeZero)
    else if Finishing(p, g1, t.exitStatus1, t.exitStatus2) then EnterFinish(g1, t.now)
    else g1
  }

  function DisplaySmooth(p: Params, g: Gauge, t: TickIn): (g': Gauge)
    requires p.Valid() && g.Valid()
    ensures g'.fcc == g.fcc
  {
    if g.s2r && !g.sleepChrgOnline then
      SmoothPrepare(ZeroPrepare(p, g.(s2r := false), t.prepZero), t.prepCurrent)
    else
      match g.mode
      case ModeFinish => InFinish(p, g, t)
      case ModeZero => InZero(p, g, t)
      case ModeSmooth => InSmooth(p, g, t)
  }

  /** Reporting clamps the charge to 0..100 percent. */
  function Clamped(dsoc: int): int {
    if dsoc > FULL then FULL else Max(0, dsoc)
  }

  function Measured(p: Params, g: Gauge, t: TickIn): (g': Gauge)
    requires g.Valid()
    ensures g'.fcc == g.fcc
  {
    LowPowerCheck(p, UpdateInfo(p, g, t), t.now)
  }

  function Tick(p: Params, g: Gauge, t: TickIn): (g': Gauge)
    requires p.Valid() && g.Valid()
    ensures g'.fcc == g.fcc
  {
    var g1 := DisplaySmooth(p, Measured(p, g, t), t);
    g1.(dsoc := Clamped(g1.dsoc))
  }

  // ----- suspend and resume

  datatype SuspendIn = SuspendIn(status: int, current: int, cap: nat, rsocCap: nat, now: nat, prepCurrent: int)

  /** Zero mode does not outlast the drain. */
  function ZeroLeft(g: Gauge, status: int, s: SuspendIn): (g': Gauge)
    ensures g'.fcc == g.fcc
  {
    if g.mode == ModeZero && g.currentAvg >= 0 then
      if status == CHARGE_FINISH then g.(mode := ModeFinish, finishBase := s.now)
      else SmoothPrepare(g.(mode := ModeSmooth), s.prepCurrent)
    else g
  }

  function Suspend(p: Params, g: Gauge, s: SuspendIn): (g': Gauge)
    requires g.Valid()
    ensures g'.fcc == g.fcc
  {
    var status := ChargeStatus(p, g.(s2r := false), s.status);
    var g1 := g.(s2r := false, currentAvg := s.current,
                 sleepChrgOnline := s.current > 0 || status == CC_OR_CV_CHRG || status == CHARGE_FINISH,
                 remainCap := s.cap, rsoc := CounterShare(s.rsocCap, g.fcc),
                 finishBase := if status != CHARGE_FINISH then s.now else g.finishBase);
    ZeroLeft(g1, status, s)
  }

  datatype ResumeIn = ResumeIn(
    current: int, relax: int, voltage: int, cap: nat, rsocCap: nat, asleep: nat,
    prepCurrent: int, prepZero: ZeroIn
  )

  /** Correct the charge from the voltage the battery relaxed to. */
  function RelaxCalibrate(p: Params, g: Gauge, r: ResumeIn): (g': Gauge)
    requires p.Valid() && g.Valid()
    ensures g'.fcc == g.fcc
  {
    var cap := VolToCap(g.voltageRelax, p.ocvTable, g.fcc);
    if ToI32(cap - g.remainCap) == 0 then g
    else ZeroPrepare(p, SmoothPrepare(InitCoulomb(g, cap), r.prepCurrent), r.prepZero)
  }

  /** Percent lost while asleep, at the low estimate. */
  function SleepSocLow(p: Params, g: Gauge): int
    requires g.Valid()
  {
    (if p.lowPwrSleep then 1 else 6) * g.sleepDischrgSec / 3600 * 100 / g.fcc
  }

  /** And at the high one. */
  function SleepSocHigh(p: Params, g: Gauge): int
    requires g.Valid()
  {
    (if p.lowPwrSleep then 20 else 40) * g.sleepDischrgSec / 3600 / (g.fcc / 100)
  }

  /** Report not above the true charge: lose what the low estimate says, but stop at the
      last five percent. */
  function SleepBelow(dsoc: int, lost: int): int {
    var target := dsoc - lost * 1000;
    if lost <= 0 then dsoc
    else if Percent(dsoc) < 5 then dsoc - 1000
    else if Percent(target) < 5 then (if Percent(dsoc) == 5 then dsoc - 1000 else 5000)
    else if Percent(target) > 5 then target
    else dsoc
  }

  /** Report above the true charge: lose up to twice the high estimate, but not past it. */
  function SleepAbove(dsoc: int, rsoc: int, lost: int): int {
    var gap := dsoc - rsoc;
    if Percent(gap) > lost then
      if gap - 5000 > lost * 2000 then dsoc - lost * 2000 else dsoc - lost * 1000
    else rsoc
  }

  function SleepLoss(p: Params, g: Gauge): int
    requires g.Valid()
  {
    if g.dsoc <= g.rsoc then SleepSocLow(p, g) else SleepSocHigh(p, g)
  }

  function SleepEstimate(p: Params, g: Gauge): int
    requires g.Valid()
  {
    if g.dsoc <= g.rsoc then SleepBelow(g.dsoc, SleepLoss(p, g))
    else SleepAbove(g.dsoc, g.rsoc, SleepLoss(p, g))
  }

  /** Where the estimate starts from: after the relaxed-voltage correction, if made. */
  function SleepStart(p: Params, g: Gauge, r: ResumeIn): (g': Gauge)
    requires p.Valid() && g.Valid()
    ensures g'.fcc == g.fcc
  {
    if g.voltageRelax >= g.voltageAvg then RelaxCalibrate(p, g, r) else g
  }

  function SleepDischarge(p: Params, g: Gauge, r: ResumeIn): (g': Gauge)
    requires p.Valid() && g.Valid()
    ensures g'.fcc == g.fcc
  {
    hide SleepStart, SleepLoss, SleepEstimate;
    var g1 := SleepStart(p, g, r);
    var lost := SleepLoss(p, g1);
    var est := SleepEstimate(p, g1);
    var low := if g1.voltageAvg <= p.pwroffVol - 70 then 0 else est;
    var kept := if g.voltageRelax >= g.voltageAvg && lost != 0 && g1.rsoc - low < 5000 && low < 40000
                then low - 1000 else low;
    g1.(dsoc := Max(0, kept))
  }

  /** What waking up reads, before any accounting. */
  function Woken(g: Gauge, r: ResumeIn): (g': Gauge)
    requires g.Valid()
    ensures g'.fcc == g.fcc
  {
    g.(s2r := true, currentAvg := r.current, voltageRelax := r.relax, voltageAvg := r.voltage,
       remainCap := r.cap, rsoc := CounterShare(r.rsocCap, g.fcc),
       sleepDischrgSec := if g.sleepChrgOnline then g.sleepDischrgSec else g.sleepDischrgSec + r.asleep)
  }

  function Resume(p: Params, g: Gauge, r: ResumeIn): (g': Gauge)
    requires p.Valid() && g.Valid()
    ensures g'.fcc == g.fcc
  {
    var g1 := Woken(g, r);
    var step := if r.voltage <= p.pwroffVol + 50 then 600 else 3600;
    if !g.sleepChrgOnline && g1.sleepDischrgSec > step then
      var g2 := SleepDischarge(p, g1, r);
      if SleepLoss(p, SleepStart(p, g1, r)) != 0 then g2.(sleepDischrgSec := 0) else g2
    else g1
  }
}

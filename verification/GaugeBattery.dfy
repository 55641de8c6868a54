// The gauge as the driver runs it: one object whose fields every algorithm updates in
// place. Each method is tied to its function in GaugeModel, so what is proved about runs
// of those functions holds of the object.

module GaugeBattery {
  import opened GaugeArith
  import opened GaugeModel
  import opened GaugeRuns
  import opened GaugeModes

  class Battery {
    const p: Params

    var dsoc: int
    var rsoc: int
    var fcc: int
    var workMode: Mode

    var currentAvg: int
    var voltageAvg: int
    var voltageRelax: int
    var remainCap: int

    var smoothSoc: int
    var smLinek: int
    var smRemainCap: int

    var zeroDsoc: int
    var zeroLinek: int
    var zeroRemainCap: int
    var zeroTimeoutCnt: int
    var zeroDropSec: nat
    var shtdDropSec: nat
    var zeroOcvCap: int

    var lowPwrTime: nat
    var fakeOffline: bool
    var finishBase: nat
    var pluggedIn: bool

    var s2r: bool
    var sleepChrgOnline: bool
    var sleepDischrgSec: nat

    ghost predicate Valid()
      reads this
    {
      p.Valid() && State().Valid()
    }

    ghost function State(): Gauge
      reads this
    {
      Gauge(dsoc, rsoc, fcc, workMode, currentAvg, voltageAvg, voltageRelax, remainCap,
            smoothSoc, smLinek, smRemainCap, zeroDsoc, zeroLinek, zeroRemainCap, zeroTimeoutCnt,
            zeroDropSec, shtdDropSec, zeroOcvCap, lowPwrTime, fakeOffline, finishBase, pluggedIn,
            s2r, sleepChrgOnline, sleepDischrgSec)
    }

    constructor (params: Params, fullCapacity: int, soc: int)
      requires params.Valid() && MIN_FCC <= fullCapacity < U32
      ensures Valid() && p == params && dsoc == soc && fcc == fullCapacity && workMode == ModeSmooth
    {
      p := params;
      dsoc, rsoc, fcc, workMode := soc, soc, fullCapacity, ModeSmooth;
      zeroDropSec, shtdDropSec, lowPwrTime, finishBase, sleepDischrgSec := 0, 0, 0, 0, 0;
    }

    /** Re-seed the counter: a share of the full capacity, full for all of it and for nothing
        less, as long as that capacity is at most MAX_SEED. */
    method InitCoulombCap(cap: int)
      requires Valid()
      modifies this
      ensures State() == InitCoulomb(old(State()), cap)
      ensures 0 <= cap <= fcc <= MAX_SEED ==>
                remainCap == cap * 1000 && 0 <= rsoc <= FULL && (rsoc == FULL <==> cap == fcc)
    {
      if 0 <= cap <= fcc <= MAX_SEED {
        SeededShare(State(), cap);
      }
      hide ToI32, ToU32;
      rsoc := ToI32(ToU32(cap * 1000 * 100) / fcc);
      remainCap := ToU32(cap * 1000);
    }

    // ----- smooth mode

    method CalcSmLinek(current: int)
      modifies this
      ensures State() == CalcSmoothSlope(old(State()), current)
    {
      hide CDiv;
      var delta: int := Abs(dsoc - rsoc);
      var diff: int := delta * 3;
      if current > 0 {
        if dsoc < rsoc {
          smLinek := CDiv(1000 * (delta + diff), NonZero(diff));
        } else if dsoc > rsoc {
          smLinek := CDiv(1000 * diff, NonZero(delta + diff));
        } else {
          smLinek := 1000;
        }
      } else {
        if dsoc < rsoc {
          smLinek := CDiv(-1000 * diff, NonZero(delta + diff));
        } else if dsoc > rsoc {
          smLinek := CDiv(-1000 * (delta + diff), NonZero(diff));
        } else {
          smLinek := -1000;
        }
      }
      smRemainCap := remainCap;
    }

    /** Restart smoothing from the report, with a slope of the current's sign. */
    method SmoothAlgoPrepare(current: int)
      modifies this
      ensures State() == SmoothPrepare(old(State()), current)
      ensures smoothSoc == dsoc == old(dsoc) && smRemainCap == remainCap
      ensures current > 0 ==> 750 <= smLinek <= 1333
      ensures current <= 0 ==> -1333 <= smLinek <= -750
    {
      SmoothSlopeValues(dsoc, rsoc, current);
      hide SmoothSlope;
      smoothSoc := dsoc;
      CalcSmLinek(current);
    }

    method CalcSmoothDischrg()
      modifies this
      ensures var smooth := Max(0, old(smoothSoc));
        State() == old(State()).(smoothSoc := smooth, dsoc := FollowDown(smooth, old(dsoc)))
    {
      if smoothSoc < 0 {
        smoothSoc := 0;
      }
      if CDiv(smoothSoc, 1000) != CDiv(dsoc, 1000) {
        if smoothSoc > dsoc {
          return;
        }
        if smoothSoc + 1000 > dsoc {
          dsoc := smoothSoc;
        } else {
          dsoc := dsoc - 1000;
        }
        if dsoc <= 0 {
          dsoc := 0;
        }
      }
    }

    method CalcSmoothChrg() returns (behind: bool)
      modifies this
      ensures var smooth := Max(0, old(smoothSoc));
        State() == old(State()).(smoothSoc := smooth, dsoc := FollowUp(smooth, old(dsoc)))
      ensures behind == (Percent(smoothSoc) != Percent(old(dsoc)) && smoothSoc < old(dsoc))
    {
      hide CDiv;
      if smoothSoc < 0 {
        smoothSoc := 0;
      }
      behind := false;
      if CDiv(smoothSoc, 1000) != CDiv(dsoc, 1000) {
        if smoothSoc < dsoc {
          behind := true;
          return;
        }
        dsoc := smoothSoc;
        if dsoc <= 0 {
          dsoc := 0;
        }
      }
    }

    /** Count a change of the smoothed charge. */
    method Count(ydsoc: int, current: int)
      requires ydsoc != 0
      modifies this
      ensures State() == CountChange(old(State()), ydsoc, current)
    {
      hide SmoothSlope, Percent, CalcSmoothSlope, FollowUp, FollowDown;
      smRemainCap := remainCap;
      smoothSoc := smoothSoc + ydsoc;
      if ydsoc < 0 {
        CalcSmoothDischrg();
      } else {
        var behind := CalcSmoothChrg();
        if behind {
          return;
        }
      }
      if s2r {
        s2r := false;
        CalcSmLinek(current);
      }
    }

    method SmoothStep(r: SmoothIn)
      requires Valid()
      modifies this
      ensures State() == SmoothAlgorithm(old(State()), r)
    {
      hide SmoothSlope, CDiv, CountChange;
      if smLinek * currentAvg <= 0 {
        CalcSmLinek(r.turnCurrent);
      }
      remainCap := r.cap;
      var deltaCap := remainCap - smRemainCap;
      if deltaCap == 0 {
        NothingCounted(smLinek, fcc);
        return;
      }
      var ydsoc := CDiv(smLinek * Abs(CDiv(deltaCap, 10)), fcc);
      if ydsoc == 0 {
        return;
      }
      Count(ydsoc, r.s2rCurrent);
    }

    // ----- zero mode

    /** The slope for `xsoc` usable percent. */
    method ChooseZeroLinek(xsoc: nat, gap: int)
      modifies this`zeroLinek
      ensures zeroLinek == ZeroSlope(p, old(State()), xsoc, gap)
    {
      hide ToU32, CDiv, Abs;
      var pct := CDiv(dsoc, 1000);
      if pct <= 1 && xsoc > 0 {
        zeroLinek := 400;
      } else {
        zeroLinek := CDiv(zeroDsoc + xsoc / 2, NonZero(xsoc));
        if p.energyMode && xsoc - pct >= 3 && pct <= 10 && zeroLinek < 300 {
          zeroLinek := 300;
        } else if xsoc - pct >= gap || (xsoc - pct >= 5 && pct <= 10 && xsoc > 15) {
          if xsoc <= 20 && ToU32(pct) >= p.zeroReserveDsoc {
            zeroLinek := 1200;
          } else if xsoc - pct >= 2 * gap {
            zeroLinek := 400;
          } else if xsoc - pct >= 3 + gap {
            zeroLinek := 600;
          } else {
            zeroLinek := 800;
          }
        } else if zeroLinek > 1800 && pct > 70 {
          zeroLinek := 1800;
        } else if zeroLinek > 1000 && zeroLinek < 1200 {
          zeroLinek := 1200;
        } else if (pct <= 15 && dsoc > 5) && zeroLinek <= 1200 {
          zeroLinek := if xsoc - pct >= gap then 800 else 1200;
        } else if zeroLinek < 1000 && pct >= 5 {
          // Only the first arm is ever taken: a wider gap was dealt with above.
          zeroLinek := if xsoc - pct < gap then 1200 else if Abs(currentAvg) > 500 then 900 else 1000;
        } else if zeroLinek < 1000 && pct <= 5 {
          zeroLinek := if xsoc - pct <= 3 then 1200 else 800;
        }
      }
    }

    /** No usable charge left. */
    method Starve(now: nat)
      modifies this
      ensures State() == ZeroStarved(old(State()), now)
    {
      zeroLinek := 1000;
      if zeroDropSec == 0 {
        zeroDropSec := now;
      }
      if Since(zeroDropSec, now) >= 15 {
        zeroDropSec := 0;
        dsoc := dsoc - 1000;
        if dsoc < 0 {
          dsoc := 0;
        }
        zeroDsoc := dsoc;
      }
    }

    method DropWhenExtremeLow(low: bool, now: nat)
      modifies this
      ensures State() == ExtremeLow(old(State()), low, now)
    {
      if low {
        if shtdDropSec == 0 {
          shtdDropSec := now;
        }
        if Since(shtdDropSec, now) > 30 {
          shtdDropSec := 0;
          dsoc := 0;
        }
      } else {
        shtdDropSec := 0;
      }
    }

    /** The percent that can still be used before shutdown, and how many of them to keep in hand. */
    method EstimateUsable(r: ZeroIn) returns (xsoc: int, gap: int)
      requires Valid()
      modifies this`zeroOcvCap, this`zeroRemainCap, this`zeroTimeoutCnt
      ensures xsoc == UsableSoc(p, old(State()), r) && gap == MinGap(p, old(State()), r.current, xsoc)
      ensures zeroOcvCap == VolToCap(OpenVoltage(p, r), p.ocvTable, fcc)
      ensures zeroRemainCap == remainCap && zeroTimeoutCnt == 0
      ensures -100 <= xsoc <= 100 && (gap in {3, 5, 10} || (gap in {8, 10, 15} && xsoc <= 30))
    {
      hide VolToSoc, VolToCap, CDiv, ToU32, Abs;
      UsableRange(p, State(), r);
      var pwroffVol := if Abs(currentAvg) < 400 && CDiv(dsoc, 1000) > 5 then p.pwroffVol + 50 else p.pwroffVol;
      var deadVoltage := pwroffVol - CDiv(r.current * (p.batRes + 50), 1000);
      var ocvVoltage := r.voltage - CDiv(r.current * p.batRes, 1000);
      var deadSoc := VolToSoc(deadVoltage, p.ocvTable);
      var ocvSoc := VolToSoc(ocvVoltage, p.ocvTable);
      xsoc := ocvSoc - deadSoc;
      zeroOcvCap := VolToCap(ocvVoltage, p.ocvTable, fcc);
      gap := 10;
      if Abs(r.current) > 1400 {
        gap := 3;
      } else if Abs(r.current) > 600 {
        gap := 5;
      }
      if xsoc <= 30 && ToU32(dsoc) >= p.zeroReserveDsoc {
        gap := gap + 5;
      }
      zeroRemainCap := remainCap;
      zeroTimeoutCnt := 0;
    }

    method CalcZeroLinek(r: ZeroIn)
      requires Valid()
      modifies this
      ensures State() == CalcZeroSlope(p, old(State()), r)
    {
      hide UsableSoc, MinGap, OpenVoltage, VolToCap, CDiv, ToU32, ZeroSlope, ZeroStarved, ExtremeLow;
      ghost var g := State();
      var pwroffVol := if Abs(currentAvg) < 400 && CDiv(dsoc, 1000) > 5 then p.pwroffVol + 50 else p.pwroffVol;
      var xsoc, gap := EstimateUsable(r);
      PickZeroLinek(g, xsoc, gap, r.now);
      DropWhenExtremeLow(r.voltage < pwroffVol - 70, r.now);
    }

    method PickZeroLinek(ghost g: Gauge, xsoc: int, gap: int, now: nat)
      requires g.dsoc == dsoc && g.zeroDsoc == zeroDsoc && g.currentAvg == currentAvg
      modifies this
      ensures State() == if xsoc >= 0
                         then old(State()).(zeroDropSec := 0, zeroLinek := ZeroSlope(p, g, xsoc, gap))
                         else ZeroStarved(old(State()), now)
    {
      hide ZeroSlope, ZeroStarved;
      if xsoc >= 0 {
        zeroDropSec := 0;
        SlopeIgnores(p, g, State(), xsoc, gap);
        ChooseZeroLinek(xsoc, gap);
      } else {
        Starve(now);
      }
    }

    method ZeroAlgoPrepare(r: ZeroIn)
      requires Valid()
      modifies this
      ensures State() == ZeroPrepare(p, old(State()), r)
    {
      hide CalcZeroSlope, CDiv;
      if CDiv(zeroDsoc, 1000) != CDiv(smoothSoc, 1000) {
        zeroDsoc := smoothSoc;
      }
      CalcZeroLinek(r);
    }

    method CalcZeroAlgorithm()
      modifies this
      ensures State() == old(State()).(dsoc := FollowZero(old(zeroDsoc), old(dsoc)))
    {
      hide CDiv;
      if CDiv(zeroDsoc, 1000) == CDiv(dsoc, 1000) {
        return;
      }
      if zeroDsoc > dsoc {
        return;
      }
      if zeroDsoc < dsoc - 1000 {
        dsoc := dsoc - 1000;
      } else {
        dsoc := zeroDsoc;
      }
    }

    method ZeroRecompute(deltaSoc: int, r: ZeroIn)
      requires Valid() && deltaSoc == ZeroChange(State())
      modifies this
      ensures State() == ZeroUpdate(p, old(State()), r)
    {
      hide CalcZeroSlope, FollowZero, ZeroChange;
      zeroTimeoutCnt := 0;
      zeroDsoc := zeroDsoc - deltaSoc;
      CalcZeroAlgorithm();
      CalcZeroLinek(r);
    }

    method ZeroStep(r1: ZeroIn, r2: ZeroIn)
      requires Valid()
      modifies this
      ensures State() == ZeroAlgorithm(p, old(State()), r1, r2)
    {
      hide ZeroUpdate, CalcZeroSlope, InitCoulomb, CDiv;
      zeroTimeoutCnt := zeroTimeoutCnt + 1;
      var deltaCap := zeroRemainCap - remainCap;
      var deltaSoc := CDiv(CDiv(zeroLinek * deltaCap, fcc), 10);
      if deltaSoc >= 10 || zeroTimeoutCnt > 100 || zeroLinek == 0 {
        ZeroRecompute(deltaSoc, r1);
      }
      if CDiv(rsoc, 1000) < 1 && zeroOcvCap > fcc / 100 {
        InitCoulombCap(zeroOcvCap);
        CalcZeroLinek(r2);
      }
    }

    // ----- finish mode

    /** A percent for every stretch of time since the charge finished. */
    method CatchUp(now: nat)
      requires Valid() && dsoc < FULL
      modifies this
      ensures State() == CaughtUp(old(State()), now)
    {
      if finishBase == 0 {
        finishBase := now;
      }
      var finishCurrent := if rsoc - dsoc > 20 then 1500 else 1000;
      var finishSec := Since(finishBase, now);
      var socSec := fcc * 3600 / 100 / finishCurrent;
      var rest := 0;
      if finishSec > socSec {
        rest := finishSec % socSec;
        dsoc := dsoc + finishSec / socSec * 1000;
        finishBase := now;
        if finishBase > rest {
          finishBase := now - rest;
        }
      }
    }

    method FinishStep(reg: int, now: nat)
      requires Valid()
      modifies this
      ensures State() == FinishAlgorithm(p, old(State()), reg, now)
    {
      hide ChargeStatus, InitCoulomb, CaughtUp, ToU32, CDiv;
      if ToU32(remainCap) != fcc && ChargeStatus(p, Snapshot(), reg) == CHARGE_FINISH {
        InitCoulombCap(fcc);
      }
      if dsoc < FULL {
        CatchUp(now);
        if CDiv(rsoc, 1000) == 100 && dsoc < FULL {
          dsoc := FULL;
        }
      }
    }

    /** The state as a value, to read the charge status from. */
    function Snapshot(): (g: Gauge)
      reads this
      ensures g == State()
    {
      Gauge(dsoc, rsoc, fcc, workMode, currentAvg, voltageAvg, voltageRelax, remainCap,
            smoothSoc, smLinek, smRemainCap, zeroDsoc, zeroLinek, zeroRemainCap, zeroTimeoutCnt,
            zeroDropSec, shtdDropSec, zeroOcvCap, lowPwrTime, fakeOffline, finishBase, pluggedIn,
            s2r, sleepChrgOnline, sleepDischrgSec)
    }

    // ----- one tick

    /** The coulomb counter, in uAh and as a share of the full capacity. */
    method ReadCharge(cap: nat, rsocCap: nat)
      requires Valid()
      modifies this
      ensures State() == old(State()).(rsoc := CounterShare(rsocCap, old(fcc)), remainCap := cap)
    {
      hide CDiv;
      rsoc := CDiv(rsocCap * 100, fcc);
      remainCap := cap;
    }

    method ReadMeters(t: TickIn)
      requires Valid()
      modifies this
      ensures State() == Metered(old(State()), t)
    {
      hide CDiv;
      voltageAvg := t.voltage;
      currentAvg := t.current;
      ReadCharge(t.cap, t.rsocCap);
    }

    method CapCounter()
      requires Valid()
      modifies this
      ensures State() == CounterCapped(old(State()))
      ensures remainCap <= fcc * 1000 + 999 && dsoc == old(dsoc)
    {
      CappedBound(State());
      CappedKeeps(State());
      hide InitCoulomb;
      if remainCap / 1000 > fcc {
        smRemainCap := fcc * 1000;
        InitCoulombCap(fcc + 100);
        InitCoulombCap(fcc);
      }
    }

    /** The finish stretch starts over as long as the charge is not finished. */
    method ResetFinishBase(status: int, now: nat)
      modifies this
      ensures State() == if status != CHARGE_FINISH then old(State()).(finishBase := now) else old(State())
    {
      if status != CHARGE_FINISH {
        finishBase := now;
      }
    }

    method ReadInfo(t: TickIn)
      requires Valid()
      modifies this
      ensures State() == UpdateInfo(p, old(State()), t)
      ensures dsoc == old(dsoc) && workMode == old(workMode)
      ensures currentAvg == t.current && voltageAvg == t.voltage && remainCap <= fcc * 1000 + 999
    {
      UpdateKeeps(p, State(), t);
      hide ChargeStatus, Metered, CounterCapped;
      ReadMeters(t);
      var status := ChargeStatus(p, Snapshot(), t.infoStatus);
      CapCounter();
      ResetFinishBase(status, t.now);
    }

    method LowPwrCheck(now: nat)
      modifies this
      ensures State() == LowPowerCheck(p, old(State()), now)
    {
      if currentAvg < 0 && voltageAvg < p.pwroffVol {
        if lowPwrTime == 0 {
          lowPwrTime := now;
        }
        if Since(lowPwrTime, now) > 60 || voltageAvg <= p.pwroffVol - 50 {
          if Since(lowPwrTime, now) > 60 {
            fakeOffline := true;
            if voltageAvg <= p.pwroffVol - 50 {
              dsoc := dsoc - 1000;
            }
          }
        }
      } else {
        lowPwrTime := 0;
        fakeOffline := false;
      }
    }

    method EnterFinishMode(now: nat)
      modifies this
      ensures State() == EnterFinish(old(State()), now)
    {
      finishBase := now;
      if finishBase == 0 {
        finishBase := 1;
      }
      workMode := ModeFinish;
    }

    method EnterZeroMode(r: ZeroIn)
      requires Valid()
      modifies this
      ensures State() == ZeroPrepare(p, old(State()), r).(mode := ModeZero)
    {
      hide ZeroPrepare;
      ZeroAlgoPrepare(r);
      workMode := ModeZero;
    }

    method EnterSmoothMode(current: int)
      modifies this
      ensures State() == SmoothPrepare(old(State()), current).(mode := ModeSmooth)
    {
      hide SmoothPrepare;
      SmoothAlgoPrepare(current);
      workMode := ModeSmooth;
    }

    /** Without a drain the report does not fall, nor zero mode follow. */
    method FinishMode(t: TickIn)
      requires Valid() && workMode == ModeFinish
      modifies this
      ensures State() == InFinish(p, old(State()), t)
      ensures old(currentAvg) >= 0 ==> dsoc >= old(dsoc) && workMode != ModeZero
    {
      FinishModeMeans(p, State(), t);
      hide SmoothPrepare, ZeroPrepare, FinishAlgorithm, ChargeStatus, ToU32;
      FinishStep(t.finishStatus, t.now);
      if ChargeStatus(p, Snapshot(), t.exitStatus1) != CHARGE_FINISH
         && !FakeFinish(p, Snapshot(), t.exitStatus2) {
        if currentAvg < 0 && ToU32(voltageAvg) < ToU32(p.zeroAlgorithmVol) {
          EnterZeroMode(t.prepZero);
        } else {
          EnterSmoothMode(t.prepCurrent);
        }
      }
    }

    /** The report does not rise, and smooth mode follows exactly when the voltage has
        recovered or the load is gone. */
    method ZeroMode(t: TickIn)
      requires Valid() && workMode == ModeZero
      modifies this
      ensures State() == InZero(p, old(State()), t)
      ensures dsoc <= Max(old(dsoc), 0)
      ensures workMode == ModeSmooth <==> Recovered(p, old(State()))
    {
      ZeroModeMeans(p, State(), t);
      hide SmoothPrepare, ZeroPrepare, ZeroAlgorithm, ChargeStatus, EnterFinish, ToU32;
      ZeroStep(t.zero1, t.zero2);
      if ToU32(voltageAvg) >= ToU32(p.zeroAlgorithmVol + 50) || currentAvg >= 0 {
        EnterSmoothMode(t.prepCurrent);
      } else if ChargeStatus(p, Snapshot(), t.exitStatus1) == CHARGE_FINISH
                || FakeFinish(p, Snapshot(), t.exitStatus2) {
        EnterFinishMode(t.now);
      }
    }

    /** The report moves the way the current flows, and zero mode follows exactly when the
        voltage is low under load. */
    method SmoothMode(t: TickIn)
      requires Valid() && workMode == ModeSmooth
      modifies this
      ensures State() == InSmooth(p, old(State()), t)
      ensures old(currentAvg) < 0 && t.smooth.turnCurrent < 0 ==> dsoc <= Max(old(dsoc), 0)
      ensures old(currentAvg) > 0 && t.smooth.turnCurrent > 0 ==> dsoc >= old(dsoc)
      ensures workMode == ModeZero <==> LowVoltage(p, old(State()))
    {
      SmoothModeMeans(p, State(), t);
      hide SmoothPrepare, ZeroPrepare, SmoothAlgorithm, ChargeStatus, EnterFinish, ToU32;
      SmoothStep(t.smooth);
      if currentAvg < 0 && ToU32(voltageAvg) < ToU32(p.zeroAlgorithmVol) {
        EnterZeroMode(t.prepZero);
      } else if ChargeStatus(p, Snapshot(), t.exitStatus1) == CHARGE_FINISH
                || FakeFinish(p, Snapshot(), t.exitStatus2) {
        EnterFinishMode(t.now);
      }
    }

    method DisplayStep(t: TickIn)
      requires Valid()
      modifies this
      ensures State() == DisplaySmooth(p, old(State()), t)
    {
      hide SmoothPrepare, ZeroPrepare, InFinish, InZero, InSmooth;
      if s2r && !sleepChrgOnline {
        s2r := false;
        ZeroAlgoPrepare(t.prepZero);
        SmoothAlgoPrepare(t.prepCurrent);
        return;
      }
      if workMode == ModeFinish {
        FinishMode(t);
      } else if workMode == ModeZero {
        ZeroMode(t);
      } else {
        SmoothMode(t);
      }
    }

    /** What goes out is between 0 and 100 percent, and what already was stays. */
    method PowerSupplyChanged()
      modifies this
      ensures State() == old(State()).(dsoc := Clamped(old(dsoc)))
      ensures 0 <= dsoc <= FULL && (0 <= old(dsoc) <= FULL ==> dsoc == old(dsoc))
    {
      if dsoc > FULL {
        dsoc := FULL;
      } else if dsoc < 0 {
        dsoc := 0;
      }
    }

    /** One run of the periodic work: on a drain the report does not rise. */
    method BatteryWork(t: TickIn)
      requires Valid()
      modifies this
      ensures Valid() && State() == Tick(p, old(State()), t)
      ensures StaysDraining(p, old(State()), t) ==> 0 <= dsoc <= old(dsoc) && workMode != ModeFinish
    {
      ghost var g := State();
      if StaysDraining(p, g, t) {
        TickNeverRises(p, g, t);
      }
      hide UpdateInfo, LowPowerCheck, DisplaySmooth, StaysDraining;
      ReadInfo(t);
      LowPwrCheck(t.now);
      DisplayStep(t);
      PowerSupplyChanged();
    }

    // ----- suspend and resume

    method NoteCharger(current: int, status: int)
      modifies this
      ensures State() == old(State()).(currentAvg := current, sleepChrgOnline :=
        current > 0 || status == CC_OR_CV_CHRG || status == CHARGE_FINISH)
    {
      currentAvg := current;
      if currentAvg > 0 || status == CC_OR_CV_CHRG || status == CHARGE_FINISH {
        sleepChrgOnline := true;
      } else {
        sleepChrgOnline := false;
      }
    }

    method LeaveZero(status: int, s: SuspendIn)
      modifies this
      ensures State() == ZeroLeft(old(State()), status, s)
    {
      hide SmoothPrepare;
      if workMode == ModeZero && currentAvg >= 0 {
        if status == CHARGE_FINISH {
          workMode := ModeFinish;
          finishBase := s.now;
        } else {
          workMode := ModeSmooth;
          SmoothAlgoPrepare(s.prepCurrent);
        }
      }
    }

    /** Going to sleep leaves the report alone, and zero mode only to a drain. */
    method PmSuspend(s: SuspendIn)
      requires Valid()
      modifies this
      ensures Valid() && State() == Suspend(p, old(State()), s)
      ensures dsoc == old(dsoc) && !s2r && (workMode == ModeZero ==> currentAvg < 0)
    {
      SuspendMeans(p, State(), s);
      hide ChargeStatus, ZeroLeft, CDiv;
      s2r := false;
      var status := ChargeStatus(p, Snapshot(), s.status);
      NoteCharger(s.current, status);
      ReadCharge(s.cap, s.rsocCap);
      ResetFinishBase(status, s.now);
      LeaveZero(status, s);
    }

    /** Correct the charge from the relaxed voltage: the report does not rise, and unless
        the counter happens to hold the same number, it then agrees with the estimate. */
    method RelaxVolCalib(r: ResumeIn)
      requires Valid()
      modifies this
      ensures State() == RelaxCalibrate(p, old(State()), r)
      ensures fcc <= MAX_INT && 0 <= old(remainCap) < U32 ==>
                var cap := VolToCap(old(voltageRelax), p.ocvTable, fcc);
                dsoc <= Max(old(dsoc), 0) && remainCap == (if old(remainCap) == cap then cap else cap * 1000)
    {
      hide VolToCap, ToI32, InitCoulomb, SmoothPrepare, ZeroPrepare;
      if fcc <= MAX_INT && 0 <= remainCap < U32 {
        RelaxMeans(p, State(), r);
      }
      var cap := VolToCap(voltageRelax, p.ocvTable, fcc);
      if ToI32(cap - remainCap) == 0 {
        return;
      }
      InitCoulombCap(cap);
      SmoothAlgoPrepare(r.prepCurrent);
      ZeroAlgoPrepare(r.prepZero);
    }

    /** What was lost asleep, for a report not above the true charge. */
    method EstimateBelow() returns (lost: int)
      requires Valid() && dsoc <= rsoc
      modifies this`dsoc
      ensures lost == SleepSocLow(p, old(State())) && dsoc == SleepBelow(old(dsoc), lost)
    {
      hide CDiv;
      var sumCap := (if p.lowPwrSleep then 1 else 6) * sleepDischrgSec / 3600;
      lost := sumCap * 100 / fcc;
      var target := dsoc - lost * 1000;
      if lost > 0 {
        if CDiv(dsoc, 1000) < 5 {
          dsoc := dsoc - 1000;
        } else if CDiv(target, 1000) < 5 && CDiv(dsoc, 1000) >= 5 {
          if CDiv(dsoc, 1000) == 5 {
            dsoc := dsoc - 1000;
          } else {
            dsoc := 5 * 1000;
          }
        } else if CDiv(target, 1000) > 5 {
          dsoc := target;
        }
      }
    }

    /** And for a report above it. */
    method EstimateAbove() returns (lost: int)
      requires Valid() && dsoc > rsoc
      modifies this`dsoc
      ensures lost == SleepSocHigh(p, old(State())) && dsoc == SleepAbove(old(dsoc), old(rsoc), lost)
    {
      hide CDiv;
      var sumCap := (if p.lowPwrSleep then 20 else 40) * sleepDischrgSec / 3600;
      lost := sumCap / (fcc / 100);
      var gap := dsoc - rsoc;
      if CDiv(gap, 1000) > lost {
        if gap - 5000 > lost * 2 * 1000 {
          dsoc := dsoc - lost * 2 * 1000;
        } else {
          dsoc := dsoc - lost * 1000;
        }
      } else {
        dsoc := rsoc;
      }
    }

    method SleepDischrg(r: ResumeIn) returns (lost: int)
      requires Valid()
      modifies this
      ensures State() == SleepDischarge(p, old(State()), r)
      ensures lost == SleepLoss(p, SleepStart(p, old(State()), r))
    {
      hide RelaxCalibrate, SleepSocLow, SleepSocHigh, SleepBelow, SleepAbove;
      var updated := false;
      if voltageRelax >= voltageAvg {
        RelaxVolCalib(r);
        updated := true;
      }
      if dsoc <= rsoc {
        lost := EstimateBelow();
      } else {
        lost := EstimateAbove();
      }
      if voltageAvg <= p.pwroffVol - 70 {
        dsoc := 0;
      }
      if updated && lost != 0 && rsoc - dsoc < 5000 && dsoc < 40 * 1000 {
        dsoc := dsoc - 1000;
      }
      if dsoc <= 0 {
        dsoc := 0;
      }
    }

    method WakeUp(r: ResumeIn)
      requires Valid()
      modifies this
      ensures State() == Woken(old(State()), r)
    {
      hide CDiv;
      s2r := true;
      currentAvg := r.current;
      ReadRelaxed(r.relax, r.voltage);
      ReadCharge(r.cap, r.rsocCap);
      CountSleep(r.asleep);
    }

    method ReadRelaxed(relax: int, voltage: int)
      modifies this
      ensures State() == old(State()).(voltageRelax := relax, voltageAvg := voltage)
    {
      voltageRelax := relax;
      voltageAvg := voltage;
    }

    /** Only sleep without a charger adds up. */
    method CountSleep(asleep: nat)
      modifies this
      ensures State() == old(State()).(sleepDischrgSec :=
        if old(sleepChrgOnline) then old(sleepDischrgSec) else old(sleepDischrgSec) + asleep)
    {
      if !sleepChrgOnline {
        sleepDischrgSec := sleepDischrgSec + asleep;
      }
    }

    /** Waking up: a report that was not negative does not rise. */
    method ResumeWork(r: ResumeIn)
      requires Valid()
      modifies this
      ensures Valid() && State() == Resume(p, old(State()), r)
      ensures old(dsoc) >= 0 ==> 0 <= dsoc <= old(dsoc)
    {
      hide SleepDischarge, SleepLoss, SleepStart, Woken;
      ghost var g := State();
      if dsoc >= 0 {
        ResumeNeverRaises(p, g, r);
      }
      WokenKeepsReadings(g, r);
      WakeUp(r);
      var timeStep := 0;
      if !sleepChrgOnline {
        timeStep := if voltageAvg <= p.pwroffVol + 50 then 600 else 3600;
      }
      if !sleepChrgOnline && sleepDischrgSec > timeStep {
        var lost := SleepDischrg(r);
        if lost != 0 {
          sleepDischrgSec := 0;
        }
      }
    }

    method Plug(online: bool)
      modifies this`pluggedIn
      ensures State() == old(State()).(pluggedIn := online)
    {
      pluggedIn := online;
    }

    method Handle(e: Event)
      requires Valid()
      modifies this
      ensures Valid() && State() == Apply(p, old(State()), e)
    {
      hide Tick, Suspend, Resume;
      match e {
        case TickEvent(t) => BatteryWork(t);
        case SuspendEvent(s) => PmSuspend(s);
        case ResumeEvent(r) => ResumeWork(r);
        case PlugEvent(online) => Plug(online);
      }
    }

    /** Any run of periodic work, suspends, resumes and plug interrupts, with the report
        before, between and after them. */
    method Play(es: seq<Event>) returns (d: seq<int>)
      requires Valid()
      modifies this
      ensures Valid() && d == Reports(p, old(State()), es) && |d| > 0 && d[|d| - 1] == dsoc
    {
      ghost var g := State();
      NoMore(p, g);
      hide Apply, Reports;
      d := [dsoc];
      assert es[0..] == es;
      for i := 0 to |es|
        invariant Valid() && |d| == i + 1 && d[i] == dsoc
        invariant d[..i] + Reports(p, State(), es[i..]) == Reports(p, g, es)
      {
        ReportsStep(p, State(), es, i);
        Handle(es[i]);
        NextReport(d, i, dsoc, Reports(p, State(), es[i + 1..]));
        d := d + [dsoc];
      }
      NoMore(p, State());
      assert es[|es|..] == [] && d == d[..|es|] + [dsoc];
    }

    /** On a drain the report never rises over such a run, on a charge it never falls, and
        it stays between 0 and 100 percent. */
    method Run(es: seq<Event>) returns (d: seq<int>)
      requires Valid()
      modifies this
      ensures Valid() && |d| > 0 && d[|d| - 1] == dsoc
      ensures old(workMode) != ModeFinish && 0 <= old(dsoc) <= FULL && Draining(p, old(State()), es) ==>
                (forall i :: 0 <= i < |d| ==> 0 <= d[i] <= FULL) && (forall i, j :: 0 <= i < j < |d| ==> d[j] <= d[i])
      ensures OnCharge(old(State())) && Charging(p, old(State()), es) ==>
                (forall i :: 0 <= i < |d| ==> 0 <= d[i] <= FULL) && (forall i, j :: 0 <= i < j < |d| ==> d[i] <= d[j])
    {
      ghost var g := State();
      if g.mode != ModeFinish && 0 <= g.dsoc <= FULL && Draining(p, g, es) {
        DrainNeverRises(p, g, es);
      }
      if OnCharge(g) && Charging(p, g, es) {
        ChargeNeverFalls(p, g, es);
      }
      hide Apply, Draining, Charging, OnCharge, Reports;
      d := Play(es);
    }
  }

  /** The slope depends on the two charges and the current only. */
  lemma SlopeIgnores(p: Params, g: Gauge, h: Gauge, xsoc: int, gap: int)
    requires xsoc >= 0 && h.dsoc == g.dsoc && h.zeroDsoc == g.zeroDsoc && h.currentAvg == g.currentAvg
    ensures ZeroSlope(p, h, xsoc, gap) == ZeroSlope(p, g, xsoc, gap)
  {
    hide CDiv, ToU32;
  }

  lemma WokenKeepsReadings(g: Gauge, r: ResumeIn)
    requires g.Valid()
    ensures Woken(g, r).sleepChrgOnline == g.sleepChrgOnline && Woken(g, r).voltageAvg == r.voltage
  {
    hide CDiv;
  }

  lemma ReportsStep(p: Params, g: Gauge, es: seq<Event>, i: nat)
    requires p.Valid() && g.Valid() && i < |es|
    ensures Reports(p, g, es[i..]) == [g.dsoc] + Reports(p, Apply(p, g, es[i]), es[i + 1..])
  {
    hide Apply;
    assert es[i..][1..] == es[i + 1..];
  }

  lemma NoMore(p: Params, g: Gauge)
    requires p.Valid() && g.Valid()
    ensures Reports(p, g, []) == [g.dsoc]
  {
  }

  lemma NextReport(d: seq<int>, i: nat, next: int, rest: seq<int>)
    requires |d| == i + 1
    ensures d[..i] + ([d[i]] + rest) == (d + [next])[..i + 1] + rest
  {
    assert (d + [next])[..i + 1] == d[..i] + [d[i]];
  }
}

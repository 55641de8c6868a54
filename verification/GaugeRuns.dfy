// What the reported charge does over whole runs of the gauge: it never rises while the
// battery is being drawn from and never falls while it is being charged, through mode
// changes, low-power drops, suspends and resumes; and one tick never moves it far.

module GaugeRuns {
  import opened Arith
  import opened GaugeArith
  import opened GaugeModel

  // ----- slopes

  /** The smooth slope takes six values only, by the direction of the current and by
      whether the report is behind, ahead of or at the true charge. */
  lemma SmoothSlopeValues(dsoc: int, rsoc: int, current: int)
    ensures SmoothSlope(dsoc, rsoc, current)
         == (if current > 0 then (if dsoc < rsoc then 1333 else if dsoc > rsoc then 750 else 1000)
             else (if dsoc < rsoc then -750 else if dsoc > rsoc then -1333 else -1000))
  {
    var d := Abs(dsoc - rsoc);
    if d > 0 {
      DivModOf(1333, 3 * d, d);
      DivModOf(750, 4 * d, 0);
      assert 1333 * (3 * d) + d == 1000 * (d + d * 3);
      assert 750 * (4 * d) + 0 == 1000 * (d * 3);
    }
  }

  lemma SmoothChangeSign(linek: int, fcc: int, delta: int)
    requires fcc > 0
    ensures linek < 0 ==> SmoothChange(linek, fcc, delta) <= 0
    ensures linek > 0 ==> SmoothChange(linek, fcc, delta) >= 0
  {
  }

  /** No change of capacity counts for nothing. */
  lemma NothingCounted(linek: int, fcc: int)
    requires fcc > 0
    ensures SmoothChange(linek, fcc, 0) == 0
  {
    assert linek * 0 == 0;
  }

  lemma SlopeTurns(linek: int, current: int, dsoc: int, rsoc: int, reading: int)
    requires current < 0 ==> reading < 0
    requires current > 0 ==> reading > 0
    ensures var k := if linek * current <= 0 then SmoothSlope(dsoc, rsoc, reading) else linek;
      (current < 0 ==> k < 0) && (current > 0 ==> k > 0)
  {
  }

  /** The slope in zero mode falls into bands: the 900 of the last cases is never reached,
      a wide gap having been dealt with before them, and a computed slope survives from
      1000 up only, and not just above it. With a narrow gap nothing slows down, but for
      the last five percent. */
  lemma ZeroSlopeBands(p: Params, g: Gauge, xsoc: nat, gap: int)
    ensures var k := ZeroSlope(p, g, xsoc, gap);
      && (k == 300 || k == 400 || k == 600 || k == 800 || k == 1000 || k >= 1200)
      && (xsoc - Percent(g.dsoc) < 5 && xsoc - Percent(g.dsoc) < gap && Percent(g.dsoc) > 1 && !p.energyMode
          ==> k >= 1000 || (k == 800 && Percent(g.dsoc) < 5))
  {
    hide CDiv, ToU32, Abs;
  }

  // ----- single steps

  /** The parts of the state the mode machine decides by. */
  predicate SameSituation(g: Gauge, h: Gauge) {
    && h.mode == g.mode && h.currentAvg == g.currentAvg && h.voltageAvg == g.voltageAvg
    && h.s2r == g.s2r && h.sleepChrgOnline == g.sleepChrgOnline
  }

  lemma StarvedLowers(g: Gauge, now: nat)
    ensures var h := ZeroStarved(g, now);
      SameSituation(g, h) && g.dsoc - 1000 <= h.dsoc <= Max(g.dsoc, 0) && (g.dsoc >= 0 ==> h.dsoc >= 0)
  {
  }

  lemma ExtremeLowLowers(g: Gauge, low: bool, now: nat)
    ensures var h := ExtremeLow(g, low, now);
      SameSituation(g, h) && h.dsoc <= Max(g.dsoc, 0) && (g.dsoc >= 0 ==> h.dsoc >= 0)
      && (!low ==> h.dsoc == g.dsoc)
  {
  }

  lemma CalcZeroSlopeLowers(p: Params, g: Gauge, r: ZeroIn)
    requires p.Valid() && g.Valid()
    ensures var h := CalcZeroSlope(p, g, r);
      && SameSituation(g, h)
      && h.dsoc <= Max(g.dsoc, 0) && (g.dsoc >= 0 ==> h.dsoc >= 0)
      && (r.voltage >= p.pwroffVol - 20 ==> h.dsoc >= g.dsoc - 1000)
  {
    hide UsableSoc, ZeroSlope, VolToCap, MinGap, Percent, OpenVoltage, ZeroStarved, ExtremeLow;
    var xsoc := UsableSoc(p, g, r);
    var g1 := g.(zeroOcvCap := VolToCap(OpenVoltage(p, r), p.ocvTable, g.fcc),
                 zeroRemainCap := g.remainCap, zeroTimeoutCnt := 0);
    StarvedLowers(g1, r.now);
    var g2 := if xsoc >= 0
              then g1.(zeroDropSec := 0, zeroLinek := ZeroSlope(p, g, xsoc, MinGap(p, g, r.current, xsoc)))
              else ZeroStarved(g1, r.now);
    ExtremeLowLowers(g2, r.voltage < ShutdownVoltage(p, g) - 70, r.now);
  }

  lemma ZeroPrepareLowers(p: Params, g: Gauge, r: ZeroIn)
    requires p.Valid() && g.Valid()
    ensures var h := ZeroPrepare(p, g, r);
      && SameSituation(g, h)
      && h.dsoc <= Max(g.dsoc, 0) && (g.dsoc >= 0 ==> h.dsoc >= 0)
      && (r.voltage >= p.pwroffVol - 20 ==> h.dsoc >= g.dsoc - 1000)
  {
    hide CalcZeroSlope, Percent;
    CalcZeroSlopeLowers(p, g, r);
    CalcZeroSlopeLowers(p, g.(zeroDsoc := g.smoothSoc), r);
  }

  lemma FollowZeroLowers(zero: int, dsoc: int)
    ensures dsoc - 1000 <= FollowZero(zero, dsoc) <= dsoc
  {
  }

  lemma ZeroUpdateLowers(p: Params, g: Gauge, r: ZeroIn)
    requires p.Valid() && g.Valid()
    ensures var h := ZeroUpdate(p, g, r);
      && SameSituation(g, h) && h.dsoc <= Max(g.dsoc, 0)
      && (r.voltage >= p.pwroffVol - 20 ==> h.dsoc >= g.dsoc - 2000)
  {
    hide CalcZeroSlope, FollowZero, ZeroChange;
    var zero := g.zeroDsoc - ZeroChange(g);
    FollowZeroLowers(zero, g.dsoc);
    CalcZeroSlopeLowers(p, g.(zeroTimeoutCnt := 0, zeroDsoc := zero, dsoc := FollowZero(zero, g.dsoc)), r);
  }

  lemma ZeroAlgorithmLowers(p: Params, g: Gauge, r1: ZeroIn, r2: ZeroIn)
    requires p.Valid() && g.Valid()
    ensures var h := ZeroAlgorithm(p, g, r1, r2);
      && SameSituation(g, h) && h.dsoc <= Max(g.dsoc, 0)
      && (r1.voltage >= p.pwroffVol - 20 && r2.voltage >= p.pwroffVol - 20 ==> h.dsoc >= g.dsoc - 3000)
  {
    hide CalcZeroSlope, ZeroUpdate, ZeroChange, Percent, ToI32, ToU32;
    var g1 := g.(zeroTimeoutCnt := g.zeroTimeoutCnt + 1);
    ZeroUpdateLowers(p, g1, r1);
    var g2 := if ZeroChange(g1) >= 10 || g1.zeroTimeoutCnt > 100 || g1.zeroLinek == 0
              then ZeroUpdate(p, g1, r1) else g1;
    CalcZeroSlopeLowers(p, InitCoulomb(g2, g2.zeroOcvCap), r2);
  }

  lemma FollowDownLowers(smooth: int, dsoc: int)
    requires smooth >= 0
    ensures dsoc - 1000 <= FollowDown(smooth, dsoc) <= Max(dsoc, 0)
  {
  }

  lemma FollowUpRaises(smooth: int, dsoc: int)
    requires smooth >= 0
    ensures FollowUp(smooth, dsoc) >= dsoc
  {
  }

  lemma CountFollows(g: Gauge, change: int, current: int)
    ensures var h := CountChange(g, change, current);
      && h.mode == g.mode && h.currentAvg == g.currentAvg && h.voltageAvg == g.voltageAvg
      && h.sleepChrgOnline == g.sleepChrgOnline && (h.s2r ==> g.s2r)
      && (change < 0 ==> g.dsoc - 1000 <= h.dsoc <= Max(g.dsoc, 0))
      && (change >= 0 ==> h.dsoc >= g.dsoc)
  {
    var smooth := Max(0, g.smoothSoc + change);
    FollowDownLowers(smooth, g.dsoc);
    FollowUpRaises(smooth, g.dsoc);
    hide FollowDown, FollowUp, Percent, SmoothSlope;
  }

  lemma TurnKeeps(g: Gauge, current: int)
    ensures var h := TurnSlope(g, current);
      && SameSituation(g, h) && h.dsoc == g.dsoc
      && h.smLinek == if g.smLinek * g.currentAvg <= 0 then SmoothSlope(g.dsoc, g.rsoc, current) else g.smLinek
  {
    hide SmoothSlope;
  }

  /** A smooth step moves the report the way the current flows. */
  lemma SmoothFollowsCurrent(g: Gauge, r: SmoothIn)
    requires g.Valid() && g.currentAvg != 0
    requires g.currentAvg < 0 ==> r.turnCurrent < 0
    requires g.currentAvg > 0 ==> r.turnCurrent > 0
    ensures var h := SmoothAlgorithm(g, r);
      && h.mode == g.mode && h.currentAvg == g.currentAvg && h.voltageAvg == g.voltageAvg
      && h.sleepChrgOnline == g.sleepChrgOnline && (h.s2r ==> g.s2r)
      && (g.currentAvg < 0 ==> g.dsoc - 1000 <= h.dsoc <= Max(g.dsoc, 0))
      && (g.currentAvg > 0 ==> h.dsoc >= g.dsoc)
  {
    hide TurnSlope, SmoothSlope, SmoothChange, CountChange;
    SlopeTurns(g.smLinek, g.currentAvg, g.dsoc, g.rsoc, r.turnCurrent);
    TurnKeeps(g, r.turnCurrent);
    var g1 := TurnSlope(g, r.turnCurrent).(remainCap := r.cap);
    SmoothChangeSign(g1.smLinek, g1.fcc, g1.remainCap - g1.smRemainCap);
    CountFollows(g1, SmoothChange(g1.smLinek, g1.fcc, g1.remainCap - g1.smRemainCap), r.s2rCurrent);
  }

  lemma MeasuredKeeps(p: Params, g: Gauge, t: TickIn)
    requires g.Valid()
    ensures var h := Measured(p, g, t);
      && h.mode == g.mode && h.s2r == g.s2r && h.sleepChrgOnline == g.sleepChrgOnline
      && h.currentAvg == t.current && h.voltageAvg == t.voltage
      && g.dsoc - 1000 <= h.dsoc <= g.dsoc
      && (t.current > 0 ==> h.dsoc == g.dsoc)
  {
    hide ChargeStatus, InitCoulomb, ToI32, ToU32, CDiv, UpdateInfo;
    UpdateKeeps(p, g, t);
  }

  lemma CoulombKeeps(g: Gauge, cap: int)
    requires g.fcc > 0
    ensures SameSituation(g, InitCoulomb(g, cap)) && InitCoulomb(g, cap).dsoc == g.dsoc
  {
    hide ToI32, ToU32;
  }

  lemma CappedKeeps(g: Gauge)
    requires g.Valid()
    ensures SameSituation(g, CounterCapped(g)) && CounterCapped(g).dsoc == g.dsoc
  {
    hide InitCoulomb;
    var g1 := g.(smRemainCap := g.fcc * 1000);
    CoulombKeeps(g1, g.fcc + 100);
    CoulombKeeps(InitCoulomb(g1, g.fcc + 100), g.fcc);
  }

  lemma UpdateKeeps(p: Params, g: Gauge, t: TickIn)
    requires g.Valid()
    ensures var h := UpdateInfo(p, g, t);
      && h.mode == g.mode && h.s2r == g.s2r && h.sleepChrgOnline == g.sleepChrgOnline
      && h.currentAvg == t.current && h.voltageAvg == t.voltage && h.dsoc == g.dsoc
  {
    hide ChargeStatus, CounterCapped, CDiv;
    CappedKeeps(Metered(g, t));
  }

  // ----- drawing from the battery

  /** Does this tick find the battery finished charging, or as good as? */
  predicate FinishSeen(p: Params, g: Gauge, t: TickIn)
    requires p.Valid() && g.Valid()
  {
    var m := Measured(p, g, t);
    if m.s2r && !m.sleepChrgOnline then false
    else
      match m.mode
      case ModeZero => Finishing(p, ZeroAlgorithm(p, m, t.zero1, t.zero2), t.exitStatus1, t.exitStatus2)
      case ModeSmooth => Finishing(p, SmoothAlgorithm(m, t.smooth), t.exitStatus1, t.exitStatus2)
      case ModeFinish => true
  }

  /** Every current reading of the tick that a slope depends on shows a drain. */
  predicate Drains(t: TickIn) {
    t.current < 0 && t.smooth.turnCurrent < 0
  }

  /** No voltage reading of the tick is low enough for the extreme-low cutoff. */
  predicate AboveCutoff(p: Params, t: TickIn) {
    && t.zero1.voltage >= p.pwroffVol - 20 && t.zero2.voltage >= p.pwroffVol - 20
    && t.prepZero.voltage >= p.pwroffVol - 20
  }

  lemma DisplayLowers(p: Params, m: Gauge, t: TickIn)
    requires p.Valid() && m.Valid() && m.currentAvg < 0 && t.smooth.turnCurrent < 0
    requires !(m.s2r && !m.sleepChrgOnline) ==>
               match m.mode
               case ModeZero => !Finishing(p, ZeroAlgorithm(p, m, t.zero1, t.zero2), t.exitStatus1, t.exitStatus2)
               case ModeSmooth => !Finishing(p, SmoothAlgorithm(m, t.smooth), t.exitStatus1, t.exitStatus2)
               case ModeFinish => false
    ensures var h := DisplaySmooth(p, m, t);
      && h.dsoc <= Max(m.dsoc, 0)
      && (m.mode != ModeFinish ==> h.mode != ModeFinish)
      && (AboveCutoff(p, t) ==> h.dsoc >= m.dsoc - 3000)
  {
    hide ZeroPrepare, ZeroAlgorithm, SmoothAlgorithm, SmoothSlope, FinishAlgorithm, Finishing,
         LowVoltage, Recovered;
    ZeroPrepareLowers(p, m.(s2r := false), t.prepZero);
    ZeroAlgorithmLowers(p, m, t.zero1, t.zero2);
    SmoothFollowsCurrent(m, t.smooth);
    var s := SmoothAlgorithm(m, t.smooth);
    ZeroPrepareLowers(p, s, t.prepZero);
  }

  /** A report in range, outside finish mode, and a tick that draws and does not enter it. */
  predicate StaysDraining(p: Params, g: Gauge, t: TickIn)
    requires p.Valid() && g.Valid()
  {
    g.mode != ModeFinish && 0 <= g.dsoc <= FULL && Drains(t) && !FinishSeen(p, g, t)
  }

  lemma TickNeverRises(p: Params, g: Gauge, t: TickIn)
    requires p.Valid() && g.Valid() && StaysDraining(p, g, t)
    ensures 0 <= Tick(p, g, t).dsoc <= g.dsoc && Tick(p, g, t).mode != ModeFinish
  {
    MeasuredKeeps(p, g, t);
    hide Measured, ZeroAlgorithm, SmoothAlgorithm, DisplaySmooth, Finishing;
    DisplayLowers(p, Measured(p, g, t), t);
  }

  /** Unless the battery is about to cut out, the report loses at most four percent at a
      time: two in following the charge down, one to low power, one to starvation. */
  lemma TickDropBounded(p: Params, g: Gauge, t: TickIn)
    requires p.Valid() && g.Valid() && StaysDraining(p, g, t)
    requires AboveCutoff(p, t)
    ensures Tick(p, g, t).dsoc >= g.dsoc - 4000
  {
    MeasuredKeeps(p, g, t);
    hide Measured, ZeroAlgorithm, SmoothAlgorithm, DisplaySmooth, Finishing;
    DisplayLowers(p, Measured(p, g, t), t);
  }

  // ----- sleeping

  lemma SleepLossNonNegative(p: Params, g: Gauge)
    requires g.Valid()
    ensures SleepLoss(p, g) >= 0
  {
    var cap := (if p.lowPwrSleep then 1 else 6) * g.sleepDischrgSec / 3600 * 100;
    DivBelow(cap, 0, g.fcc);
    var cap2 := (if p.lowPwrSleep then 20 else 40) * g.sleepDischrgSec / 3600;
    DivBelow(cap2, 0, g.fcc / 100);
  }

  /** The estimate of what was lost asleep: it never adds; it stays at or above the true
      charge when the report was above it; and it spares the last five percent of a report
      of at least six that was not. */
  lemma SleepEstimateBounds(p: Params, g: Gauge)
    requires g.Valid()
    ensures var est := SleepEstimate(p, g);
      && est <= g.dsoc
      && (g.dsoc > g.rsoc ==> est >= g.rsoc)
      && (g.dsoc <= g.rsoc && g.dsoc >= 6000 ==> est >= 5000)
  {
    SleepLossNonNegative(p, g);
    hide SleepLoss;
  }

  lemma SleepStartLowers(p: Params, g: Gauge, r: ResumeIn)
    requires p.Valid() && g.Valid() && g.dsoc >= 0
    ensures 0 <= SleepStart(p, g, r).dsoc <= g.dsoc
    ensures SameSituation(g, SleepStart(p, g, r))
  {
    var cap := VolToCap(g.voltageRelax, p.ocvTable, g.fcc);
    ZeroPrepareLowers(p, SmoothPrepare(InitCoulomb(g, cap), r.prepCurrent), r.prepZero);
    hide ZeroPrepare, VolToCap, SmoothSlope, ToI32, ToU32;
  }

  /** Waking up never raises the report, and never makes it negative. */
  lemma SleepNeverRaises(p: Params, g: Gauge, r: ResumeIn)
    requires p.Valid() && g.Valid() && g.dsoc >= 0
    ensures 0 <= SleepDischarge(p, g, r).dsoc <= g.dsoc
    ensures SameSituation(g, SleepDischarge(p, g, r))
  {
    SleepStartLowers(p, g, r);
    SleepEstimateBounds(p, SleepStart(p, g, r));
    hide SleepStart, SleepEstimate, SleepLoss;
  }

  // ----- runs

  /** The plug and unplug interrupts set the plug flag. */
  datatype Event =
    | TickEvent(t: TickIn)
    | SuspendEvent(s: SuspendIn)
    | ResumeEvent(r: ResumeIn)
    | PlugEvent(online: bool)

  function Apply(p: Params, g: Gauge, e: Event): (g': Gauge)
    requires p.Valid() && g.Valid()
    ensures g'.Valid()
  {
    match e
    case TickEvent(t) => Tick(p, g, t)
    case SuspendEvent(s) => Suspend(p, g, s)
    case ResumeEvent(r) => Resume(p, g, r)
    case PlugEvent(online) => g.(pluggedIn := online)
  }

  /** The current readings show a drain, and no tick finds the charge finished. */
  predicate Draining(p: Params, g: Gauge, es: seq<Event>)
    requires p.Valid() && g.Valid()
    decreases es
  {
    es == [] ||
    ((match es[0]
      case TickEvent(t) => Drains(t) && !FinishSeen(p, g, t)
      case SuspendEvent(s) => s.current < 0
      case _ => true)
     && Draining(p, Apply(p, g, es[0]), es[1..]))
  }

  /** The reported charge before, between and after the events of a run. */
  function Reports(p: Params, g: Gauge, es: seq<Event>): seq<int>
    requires p.Valid() && g.Valid()
    decreases es
  {
    if es == [] then [g.dsoc] else [g.dsoc] + Reports(p, Apply(p, g, es[0]), es[1..])
  }

  lemma ApplyNeverRises(p: Params, g: Gauge, e: Event)
    requires p.Valid() && g.Valid() && g.mode != ModeFinish && 0 <= g.dsoc <= FULL
    requires Draining(p, g, [e])
    ensures 0 <= Apply(p, g, e).dsoc <= g.dsoc && Apply(p, g, e).mode != ModeFinish
  {
    match e
    case TickEvent(t) =>
      TickNeverRises(p, g, t);
      hide Tick;
    case SuspendEvent(s) =>
      hide ChargeStatus, SmoothPrepare, CDiv;
    case ResumeEvent(r) =>
      ResumeNeverRaises(p, g, r);
      hide Resume;
    case PlugEvent(_) =>
  }

  lemma ResumeNeverRaises(p: Params, g: Gauge, r: ResumeIn)
    requires p.Valid() && g.Valid() && g.dsoc >= 0
    ensures 0 <= Resume(p, g, r).dsoc <= g.dsoc && Resume(p, g, r).mode == g.mode
  {
    hide SleepDischarge, SleepStart, SleepLoss;
    assert Woken(g, r).dsoc == g.dsoc && Woken(g, r).mode == g.mode by {
      hide CDiv;
    }
    SleepNeverRaises(p, Woken(g, r), r);
    hide Woken;
  }

  /** Over any run in which the battery is drawn from, starting outside finish mode, the
      reported charge never rises and stays between 0 and 100 percent: through low-power
      drops, changes of mode, plugging, suspends, resumes and the resets that follow. */
  lemma {:induction false} DrainNeverRises(p: Params, g: Gauge, es: seq<Event>)
    requires p.Valid() && g.Valid() && g.mode != ModeFinish && 0 <= g.dsoc <= FULL
    requires Draining(p, g, es)
    ensures var d := Reports(p, g, es);
      && |d| == |es| + 1 && d[0] == g.dsoc
      && (forall i :: 0 <= i < |d| ==> 0 <= d[i] <= FULL)
      && (forall i, j :: 0 <= i < j < |d| ==> d[j] <= d[i])
    decreases es
  {
    if es != [] {
      assert Draining(p, g, [es[0]]) by {
        assert [es[0]][1..] == [];
        hide Apply, FinishSeen, Drains;
      }
      ApplyNeverRises(p, g, es[0]);
      hide Apply, FinishSeen, Drains;
      DrainNeverRises(p, Apply(p, g, es[0]), es[1..]);
    }
  }

  // ----- charging

  lemma CaughtUpRaises(g: Gauge, now: nat)
    requires g.Valid()
    ensures CaughtUp(g, now).dsoc >= g.dsoc && SameSituation(g, CaughtUp(g, now))
  {
    var sec := Since(if g.finishBase == 0 then now else g.finishBase, now);
    DivBelow(sec, 0, PerPercent(g));
    hide PerPercent;
  }

  lemma FinishRaises(p: Params, g: Gauge, reg: int, now: nat)
    requires g.Valid()
    ensures var h := FinishAlgorithm(p, g, reg, now); h.dsoc >= g.dsoc && SameSituation(g, h)
  {
    hide CaughtUp, ChargeStatus, InitCoulomb, ToU32, Percent;
    CoulombKeeps(g, g.fcc);
    CaughtUpRaises(g, now);
    CaughtUpRaises(InitCoulomb(g, g.fcc), now);
  }

  predicate Charges(t: TickIn) {
    t.current > 0 && t.smooth.turnCurrent > 0
  }

  lemma ChargingTick(p: Params, g: Gauge, t: TickIn)
    requires p.Valid() && g.Valid() && g.mode != ModeZero && 0 <= g.dsoc <= FULL
    requires Charges(t) && !(g.s2r && !g.sleepChrgOnline)
    ensures var h := Tick(p, g, t);
      && g.dsoc <= h.dsoc <= FULL && h.mode != ModeZero && !(h.s2r && !h.sleepChrgOnline)
  {
    MeasuredKeeps(p, g, t);
    var m := Measured(p, g, t);
    FinishRaises(p, m, t.finishStatus, t.now);
    SmoothFollowsCurrent(m, t.smooth);
    hide Measured, FinishAlgorithm, SmoothAlgorithm, ZeroPrepare, ZeroAlgorithm, SmoothSlope, Finishing;
  }

  /** A gauge that is not about to handle a discharge. */
  predicate OnCharge(g: Gauge) {
    g.mode != ModeZero && 0 <= g.dsoc <= FULL && !(g.s2r && !g.sleepChrgOnline)
  }

  /** The current readings show a charge, and the device sleeps on the charger. */
  predicate Charging(p: Params, g: Gauge, es: seq<Event>)
    requires p.Valid() && g.Valid()
    decreases es
  {
    es == [] ||
    ((match es[0]
      case TickEvent(t) => Charges(t)
      case SuspendEvent(s) => s.current > 0
      case ResumeEvent(r) => g.sleepChrgOnline
      case PlugEvent(_) => true)
     && Charging(p, Apply(p, g, es[0]), es[1..]))
  }

  lemma ApplyNeverFalls(p: Params, g: Gauge, e: Event)
    requires p.Valid() && g.Valid() && OnCharge(g)
    requires Charging(p, g, [e])
    ensures OnCharge(Apply(p, g, e)) && Apply(p, g, e).dsoc >= g.dsoc
  {
    match e
    case TickEvent(t) =>
      ChargingTick(p, g, t);
      hide Tick;
    case SuspendEvent(s) =>
      hide ChargeStatus, SmoothPrepare, CDiv;
    case ResumeEvent(r) =>
      hide SleepDischarge, SleepLoss, SleepStart, CDiv;
    case PlugEvent(_) =>
  }

  /** Over any run in which the battery is charged, awake or asleep on the charger, starting
      outside zero mode, the reported charge never falls and never passes 100 percent:
      through changes of mode, plugging, suspends and resumes. */
  lemma {:induction false} ChargeNeverFalls(p: Params, g: Gauge, es: seq<Event>)
    requires p.Valid() && g.Valid() && OnCharge(g)
    requires Charging(p, g, es)
    ensures var d := Reports(p, g, es);
      && |d| == |es| + 1 && d[0] == g.dsoc
      && (forall i :: 0 <= i < |d| ==> 0 <= d[i] <= FULL)
      && (forall i, j :: 0 <= i < j < |d| ==> d[i] <= d[j])
    decreases es
  {
    if es != [] {
      assert Charging(p, g, [es[0]]) by {
        assert [es[0]][1..] == [];
        hide Apply, Charges;
      }
      ApplyNeverFalls(p, g, es[0]);
      hide Apply, Charges;
      ChargeNeverFalls(p, Apply(p, g, es[0]), es[1..]);
    }
  }
}

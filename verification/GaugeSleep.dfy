// What a sleep without charger costs: the rates it is estimated at, what the estimate takes
// off the report, and when a resume counts it.

module GaugeSleep {
  import opened Arith
  import opened GaugeArith
  import opened GaugeModel
  import opened GaugeRuns
  import opened GaugeModes

  /** Charge a current of `rate` mA draws in `sec` seconds, in whole mAh. */
  function Drawn(rate: nat, sec: nat): nat {
    rate * sec / 3600
  }

  /** The low estimate is what 6 mA draw, or 1 mA in low-power sleep, in whole percents of the
      full capacity; the high one what 40 or 20 mA draw, in percents of a hundredth of it in
      whole mAh. */
  lemma SleepRates(p: Params, g: Gauge)
    requires g.Valid()
    ensures var low, mAh := SleepSocLow(p, g), Drawn(if p.lowPwrSleep then 1 else 6, g.sleepDischrgSec);
      low * g.fcc <= mAh * 100 < (low + 1) * g.fcc
    ensures var high, mAh := SleepSocHigh(p, g), Drawn(if p.lowPwrSleep then 20 else 40, g.sleepDischrgSec);
      high * (g.fcc / 100) <= mAh < (high + 1) * (g.fcc / 100)
  {
    Parts(Drawn(if p.lowPwrSleep then 1 else 6, g.sleepDischrgSec) * 100, g.fcc);
    Parts(Drawn(if p.lowPwrSleep then 20 else 40, g.sleepDischrgSec), g.fcc / 100);
  }

  lemma Parts(x: nat, k: nat)
    requires k > 0
    ensures 0 <= x / k && x / k * k <= x < (x / k + 1) * k
  {
    DivBelow(x, x / k, k);
    DivBelow(x, x / k + 1, k);
  }

  lemma DrawnIs(rate: nat, sec: nat)
    ensures Drawn(rate, sec) * 3600 <= rate * sec < (Drawn(rate, sec) + 1) * 3600
  {
  }

  /** The low estimate is not above the high one. */
  lemma LowNotAboveHigh(p: Params, g: Gauge)
    requires g.Valid()
    ensures SleepSocLow(p, g) <= SleepSocHigh(p, g)
  {
    var a := Drawn(if p.lowPwrSleep then 1 else 6, g.sleepDischrgSec);
    var b := Drawn(if p.lowPwrSleep then 20 else 40, g.sleepDischrgSec);
    MoreDrawn(if p.lowPwrSleep then 1 else 6, if p.lowPwrSleep then 20 else 40, g.sleepDischrgSec);
    assert SleepSocLow(p, g) == a * 100 / g.fcc && SleepSocHigh(p, g) == b / (g.fcc / 100);
    HundredthsUp(a, b, g.fcc);
  }

  lemma HundredthsUp(a: nat, b: nat, fcc: nat)
    requires a <= b && fcc >= 100
    ensures a * 100 / fcc <= b / (fcc / 100)
  {
    var h, q := fcc / 100, a * 100 / fcc;
    DivBelow(a * 100, q, fcc);
    MulMonotone(100 * h, fcc, q);
    assert 100 * h * q == 100 * (q * h) && fcc * q == q * fcc;
    DivBelow(b, q, h);
  }

  lemma MoreDrawn(r1: nat, r2: nat, sec: nat)
    requires r1 <= r2
    ensures Drawn(r1, sec) <= Drawn(r2, sec)
  {
    MulMonotone(r1, r2, sec);
  }

  /** A report not above the true charge: below five percent it loses one percent, from there
      the estimate, but it stops at five percent, or just under if it was already there. An
      estimate that would end within the sixth percent is not taken at all. */
  lemma BelowLoses(dsoc: nat, lost: nat)
    requires lost > 0
    ensures var est, rest := SleepBelow(dsoc, lost), dsoc - lost * 1000;
      && (dsoc < 6000 ==> est == dsoc - 1000)
      && (dsoc >= 6000 && rest < 5000 ==> est == 5000)
      && (dsoc >= 6000 && 5000 <= rest < 6000 ==> est == dsoc)
      && (dsoc >= 6000 && rest >= 6000 ==> est == rest)
  {
  }

  /** So a loss is counted exactly when it does not end within the sixth percent. */
  lemma LossCountedIff(dsoc: nat, lost: nat)
    ensures SleepBelow(dsoc, lost) < dsoc <==> lost > 0 && !(dsoc >= 6000 && 5000 <= dsoc - lost * 1000 < 6000)
  {
    if lost > 0 {
      BelowLoses(dsoc, lost);
    }
    hide Percent;
  }

  /** A report above the true charge: it loses the estimate, or twice that when it is far
      ahead, and falls to the true charge when the estimate reaches it. */
  lemma AboveLoses(dsoc: int, rsoc: int, lost: nat)
    requires dsoc > rsoc
    ensures var est, gap := SleepAbove(dsoc, rsoc, lost), dsoc - rsoc;
      && (gap < (lost + 1) * 1000 <==> est == rsoc)
      && (gap >= (lost + 1) * 1000 && gap - 5000 <= lost * 2000 ==> est == dsoc - lost * 1000)
      && (gap >= (lost + 1) * 1000 && gap - 5000 > lost * 2000 ==> est == dsoc - lost * 2000)
  {
  }

  /** After the estimate: empty far below the power-off voltage, and otherwise one percent in
      reserve when the relaxed voltage was used, something was lost, the report is low and
      not far below the true charge. */
  lemma SleepEnds(p: Params, g: Gauge, r: ResumeIn)
    requires p.Valid() && g.Valid() && g.dsoc >= 0
    ensures var s, h := SleepStart(p, g, r), SleepDischarge(p, g, r);
      var est := SleepEstimate(p, s);
      && (s.voltageAvg <= p.pwroffVol - 70 ==> h.dsoc == 0)
      && (s.voltageAvg > p.pwroffVol - 70 ==>
            h.dsoc == (if g.voltageRelax >= g.voltageAvg && SleepLoss(p, s) != 0 && s.rsoc - est < 5000 && est < 40000
                       then Max(0, est - 1000) else Max(0, est)))
  {
    hide SleepStart, SleepEstimate, SleepLoss;
  }

  /** The relaxed voltage is used exactly when it is not below the last one measured. */
  lemma RelaxUsedIff(p: Params, g: Gauge, r: ResumeIn)
    requires p.Valid() && g.Valid() && g.fcc <= MAX_INT && 0 <= g.remainCap < U32
    ensures g.voltageRelax < g.voltageAvg ==> SleepStart(p, g, r) == g
    ensures g.voltageRelax >= g.voltageAvg ==>
              var cap := VolToCap(g.voltageRelax, p.ocvTable, g.fcc);
              SleepStart(p, g, r).remainCap == if g.remainCap == cap then cap else cap * 1000
  {
    RelaxMeans(p, g, r);
    hide RelaxCalibrate, VolToCap;
  }

  /** Seconds asleep add up only without a charger, and they cost nothing before an hour of
      them, or ten minutes near the power-off voltage. */
  lemma ShortSleepFree(p: Params, g: Gauge, r: ResumeIn)
    requires p.Valid() && g.Valid()
    ensures var h := Resume(p, g, r);
      var slept := g.sleepDischrgSec + (if g.sleepChrgOnline then 0 else r.asleep);
      && (slept <= 600 || (slept <= 3600 && r.voltage > p.pwroffVol + 50) || g.sleepChrgOnline ==>
            h.dsoc == g.dsoc && h.sleepDischrgSec == slept)
      && (h.sleepDischrgSec == slept || h.sleepDischrgSec == 0)
  {
    hide SleepDischarge, SleepStart, SleepLoss, CounterShare;
    SleepSeconds(p, Woken(g, r), r);
  }

  lemma SleepSeconds(p: Params, g: Gauge, r: ResumeIn)
    requires p.Valid() && g.Valid()
    ensures SleepDischarge(p, g, r).sleepDischrgSec == g.sleepDischrgSec
  {
    var cap := VolToCap(g.voltageRelax, p.ocvTable, g.fcc);
    ZeroSlopeKeepsCounter(p, SmoothPrepare(InitCoulomb(g, cap), r.prepCurrent), r.prepZero);
    hide ZeroPrepare, VolToCap, SmoothSlope, ToI32, ToU32, SleepEstimate, SleepLoss;
  }

  /** A sleep that is long enough and for which a loss was estimated is counted once: its
      seconds start over. */
  lemma CountedOnce(p: Params, g: Gauge, r: ResumeIn)
    requires p.Valid() && g.Valid() && !g.sleepChrgOnline
    requires g.sleepDischrgSec + r.asleep > (if r.voltage <= p.pwroffVol + 50 then 600 else 3600)
    ensures var w, h := Woken(g, r), Resume(p, g, r);
      && h.dsoc == SleepDischarge(p, w, r).dsoc
      && h.sleepDischrgSec == (if SleepLoss(p, SleepStart(p, w, r)) != 0 then 0 else g.sleepDischrgSec + r.asleep)
  {
    hide SleepDischarge, SleepStart, SleepLoss, CounterShare;
    SleepSeconds(p, Woken(g, r), r);
  }
}

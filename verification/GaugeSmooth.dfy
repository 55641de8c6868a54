// How faithful the smooth algorithm is over a run of steps: rounding is bounded per
// counted step, and capacity changes too small to count are carried to the next step.

module GaugeSmooth {
  import opened GaugeArith
  import opened GaugeModel
  import opened GaugeRuns

  const MAX_SLOPE: int := 1333

  /** A gauge whose slope agrees with the current, so that steps keep it. */
  predicate Steady(g: Gauge) {
    && g.Valid() && !g.s2r && g.smLinek * g.currentAvg > 0
    && -MAX_SLOPE <= g.smLinek <= MAX_SLOPE
  }

  function StepTo(g: Gauge, cap: int): Gauge
    requires g.Valid()
  {
    SmoothAlgorithm(g, SmoothIn(cap, 0, 0))
  }

  /** What a reading of `cap` would add to the smoothed charge. */
  function ChangeAt(g: Gauge, cap: int): int
    requires g.Valid()
  {
    SmoothChange(g.smLinek, g.fcc, cap - g.smRemainCap)
  }

  lemma StepFacts(g: Gauge, cap: int)
    requires Steady(g)
    ensures var h := StepTo(g, cap);
      && Steady(h) && h.smLinek == g.smLinek
      && (if ChangeAt(g, cap) == 0 then h.smoothSoc == g.smoothSoc && h.smRemainCap == g.smRemainCap
          else h.smoothSoc == Max(0, g.smoothSoc + ChangeAt(g, cap)) && h.smRemainCap == cap)
  {
    hide SmoothChange, FollowDown, FollowUp, Percent, SmoothSlope;
  }

  function SmoothRun(g: Gauge, caps: seq<int>): Gauge
    requires Steady(g)
    decreases caps
  {
    if caps == [] then g
    else
      StepFacts(g, caps[0]);
      SmoothRun(StepTo(g, caps[0]), caps[1..])
  }

  /** The floor at zero is never reached. */
  predicate Unclamped(g: Gauge, caps: seq<int>)
    requires Steady(g)
    decreases caps
  {
    caps == [] ||
    (g.smoothSoc + ChangeAt(g, caps[0]) >= 0
     && (StepFacts(g, caps[0]); Unclamped(StepTo(g, caps[0]), caps[1..])))
  }

  /** How many readings of the run are counted. */
  function Counted(g: Gauge, caps: seq<int>): nat
    requires Steady(g)
    decreases caps
  {
    if caps == [] then 0
    else
      StepFacts(g, caps[0]);
      (if ChangeAt(g, caps[0]) != 0 then 1 else 0) + Counted(StepTo(g, caps[0]), caps[1..])
  }

  /** And the sizes of the capacity changes they are counted for. */
  function CountedChange(g: Gauge, caps: seq<int>): nat
    requires Steady(g)
    decreases caps
  {
    if caps == [] then 0
    else
      StepFacts(g, caps[0]);
      (if ChangeAt(g, caps[0]) != 0 then Abs(caps[0] - g.smRemainCap) else 0)
      + CountedChange(StepTo(g, caps[0]), caps[1..])
  }

  // ----- rounding

  lemma CDivError(a: int, b: int)
    requires b > 0
    ensures -b < a - b * CDiv(a, b) < b
  {
  }

  lemma TenthsError(delta: int)
    ensures 10 * Abs(CDiv(delta, 10)) <= Abs(delta) <= 10 * Abs(CDiv(delta, 10)) + 9
  {
  }

  /** One step's change is off by less than 3.4 thousandths of a percent. */
  lemma StepError(linek: int, fcc: int, delta: int)
    requires fcc >= MIN_FCC && -MAX_SLOPE <= linek <= MAX_SLOPE
    ensures Abs(10 * (fcc * SmoothChange(linek, fcc, delta)) - linek * Abs(delta)) < 34 * fcc
  {
    var a := Abs(CDiv(delta, 10));
    var e := Abs(delta) - 10 * a;
    TenthsError(delta);
    CDivError(linek * a, fcc);
    var y := SmoothChange(linek, fcc, delta);
    hide SmoothChange, CDiv;
    assert linek * Abs(delta) == 10 * (linek * a) + linek * e by {
      assert Abs(delta) == 10 * a + e;
      Distribute(linek, a, e);
    }
    SmallProduct(linek, e);
  }

  lemma Distribute(k: int, a: int, e: int)
    ensures k * (10 * a + e) == 10 * (k * a) + k * e
  {
  }

  lemma SmallProduct(k: int, e: int)
    requires -MAX_SLOPE <= k <= MAX_SLOPE && 0 <= e <= 9
    ensures -11997 <= k * e <= 11997
  {
  }

  lemma AddErrors(fcc: int, k: int, y: int, rest: int, d: int, sum: int, n: nat)
    requires fcc > 0
    requires Abs(10 * (fcc * y) - k * d) < 34 * fcc
    requires n > 0 ==> Abs(10 * (fcc * rest) - k * sum) < 34 * fcc * n
    requires n == 0 ==> 10 * (fcc * rest) - k * sum == 0
    ensures Abs(10 * (fcc * (y + rest)) - k * (d + sum)) < 34 * fcc * (n + 1)
  {
  }

  /** The first step of an unclamped run, and what is left of the run after it. */
  lemma RunUnfolds(g: Gauge, caps: seq<int>)
    requires Steady(g) && Unclamped(g, caps) && caps != []
    ensures var h, y, rest := StepTo(g, caps[0]), ChangeAt(g, caps[0]), caps[1..];
      && Steady(h) && h.fcc == g.fcc && h.smLinek == g.smLinek && h.smoothSoc == g.smoothSoc + y
      && Unclamped(h, rest) && SmoothRun(g, caps) == SmoothRun(h, rest)
      && Counted(g, caps) == (if y != 0 then 1 else 0) + Counted(h, rest)
      && CountedChange(g, caps) == (if y != 0 then Abs(caps[0] - g.smRemainCap) else 0) + CountedChange(h, rest)
  {
    StepFacts(g, caps[0]);
    hide SmoothChange, Steady;
  }

  /** Over any run of unclamped steps the change of the smoothed charge, which is worth
      10 fcc units of slope times capacity each, misses the counted capacity changes by
      less than 3.4 thousandths of a percent per counted step. */
  lemma {:induction false} RunError(g: Gauge, caps: seq<int>)
    requires Steady(g) && Unclamped(g, caps)
    ensures var h, n := SmoothRun(g, caps), Counted(g, caps);
      var miss := 10 * (g.fcc * (h.smoothSoc - g.smoothSoc)) - g.smLinek * CountedChange(g, caps);
      if n == 0 then miss == 0 else Abs(miss) < 34 * g.fcc * n
    decreases caps
  {
    if caps != [] {
      RunUnfolds(g, caps);
      var h, rest := StepTo(g, caps[0]), caps[1..];
      StepError(g.smLinek, g.fcc, caps[0] - g.smRemainCap);
      var y := ChangeAt(g, caps[0]);
      hide StepTo, SmoothChange, Steady, SmoothRun, Counted, CountedChange, Unclamped;
      RunError(h, rest);
      if y != 0 {
        AddErrors(g.fcc, g.smLinek, y, SmoothRun(h, rest).smoothSoc - h.smoothSoc,
                  Abs(caps[0] - g.smRemainCap), CountedChange(h, rest), Counted(h, rest));
      }
    }
  }

  // ----- carrying

  /** y is not on the wrong side of x: above it on a charge, below it on a discharge. */
  predicate Onward(charging: bool, x: int, y: int) {
    if charging then x <= y else y <= x
  }

  predicate OneWay(charging: bool, from: int, caps: seq<int>)
    decreases caps
  {
    caps == [] || (Onward(charging, from, caps[0]) && OneWay(charging, caps[0], caps[1..]))
  }

  /** Nothing is lost between counted steps: on a charge or a discharge the counted changes
      add up to all the capacity gone in or out, but for a remainder not worth a single
      unit yet. */
  lemma {:induction false} ChangesCarried(g: Gauge, charging: bool, caps: seq<int>, last: int)
    requires Steady(g) && OneWay(charging, last, caps) && Onward(charging, g.smRemainCap, last)
    requires ChangeAt(g, last) == 0
    ensures var h := SmoothRun(g, caps);
      && Steady(h) && Onward(charging, g.smRemainCap, h.smRemainCap)
      && CountedChange(g, caps) == Abs(h.smRemainCap - g.smRemainCap)
      && ChangeAt(h, if caps == [] then last else caps[|caps| - 1]) == 0
    decreases caps
  {
    if caps != [] {
      var cap, rest := caps[0], caps[1..];
      StepFacts(g, cap);
      var h := StepTo(g, cap);
      NothingCounted(h.smLinek, h.fcc);
      assert h.fcc == g.fcc;
      hide StepTo, SmoothChange, Steady;
      ChangesCarried(h, charging, rest, cap);
      assert rest != [] ==> rest[|rest| - 1] == caps[|caps| - 1];
    }
  }

  // ----- following

  /** The report follows a lower charge by a percent at a time and goes no lower than it. */
  lemma FollowsDown(smooth: int, dsoc: int)
    requires 0 <= smooth && 0 <= dsoc
    ensures smooth / 1000 < dsoc / 1000 ==> FollowDown(smooth, dsoc) == Max(smooth, dsoc - 1000)
    ensures smooth / 1000 >= dsoc / 1000 ==> FollowDown(smooth, dsoc) == dsoc
    ensures smooth <= dsoc ==> FollowDown(smooth, dsoc) / 1000 == Max(smooth / 1000, dsoc / 1000 - 1)
  {
  }

  /** And a higher one at once. */
  lemma FollowsUp(smooth: int, dsoc: int)
    requires 0 <= smooth && 0 <= dsoc
    ensures smooth / 1000 > dsoc / 1000 ==> FollowUp(smooth, dsoc) == smooth
    ensures smooth / 1000 <= dsoc / 1000 ==> FollowUp(smooth, dsoc) == dsoc
    ensures FollowUp(smooth, dsoc) / 1000 == Max(smooth / 1000, dsoc / 1000)
  {
  }

  /** A smooth step that counts a change: the charge takes it, not below zero, and the report
      follows in the direction of the change; after a resume the slope is renewed. */
  lemma CountedStep(g: Gauge, change: int, current: int)
    requires g.smoothSoc >= 0 && g.dsoc >= 0 && change != 0
    ensures var h := CountChange(g, change, current);
      && h.smoothSoc == Max(0, g.smoothSoc + change) && h.smRemainCap == g.remainCap
      && (change < 0 && h.smoothSoc <= g.dsoc ==>
            h.dsoc / 1000 == Max(h.smoothSoc / 1000, g.dsoc / 1000 - 1))
      && (change > 0 ==> h.dsoc / 1000 == Max(h.smoothSoc / 1000, g.dsoc / 1000))
      && (change < 0 && g.s2r ==> !h.s2r && h.smLinek == SmoothSlope(h.dsoc, g.rsoc, current))
      && (!g.s2r ==> h.smLinek == g.smLinek)
  {
    var smooth := Max(0, g.smoothSoc + change);
    FollowsDown(smooth, g.dsoc);
    FollowsUp(smooth, g.dsoc);
    hide FollowDown, FollowUp, Percent, SmoothSlope;
  }
}

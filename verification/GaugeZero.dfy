// Zero mode follows the drain: what each recomputation takes off, what is carried to the
// next, how the report follows, and what the voltages and waiting times decide.

module GaugeZero {
  import opened Arith
  import opened GaugeArith
  import opened GaugeModel
  import opened GaugeRuns
  import opened GaugeModes

  // ----- following

  /** A charge in a lower percent pulls the report to it, by a percent at most. */
  lemma ZeroPullsReport(zero: int, dsoc: int)
    requires 0 <= zero && 0 <= dsoc
    ensures zero / 1000 < dsoc / 1000 ==> FollowZero(zero, dsoc) == Max(zero, dsoc - 1000)
    ensures zero / 1000 >= dsoc / 1000 ==> FollowZero(zero, dsoc) == dsoc
    ensures zero <= dsoc ==> FollowZero(zero, dsoc) / 1000 == Max(zero / 1000, dsoc / 1000 - 1)
  {
  }

  // ----- one step

  /** Charge is usable whichever shutdown voltage the report selects. */
  ghost predicate Usable(p: Params, g: Gauge, r: ZeroIn)
    requires p.Valid()
  {
    forall d: int :: UsableSoc(p, g.(dsoc := d), r) >= 0
  }

  /** No second look at the counter, no cutoff, and some charge to use. */
  ghost predicate Plain(p: Params, g: Gauge, r: ZeroIn)
    requires p.Valid()
  {
    && g.zeroTimeoutCnt >= 0 && Percent(g.rsoc) >= 1
    && r.voltage >= p.pwroffVol - 20 && Usable(p, g, r)
  }

  /** Doubly truncated, a quotient is off by less than one, and at least n exactly when
      n divisors fit. */
  lemma TruncatedTwice(x: int, fcc: int, n: nat)
    requires fcc > 0 && n > 0
    ensures var y := CDiv(CDiv(x, fcc), 10);
      -(10 * fcc) < x - 10 * (fcc * y) < 10 * fcc
      && (y >= n <==> x >= 10 * (fcc * n))
  {
    var q := CDiv(x, fcc);
    var y := CDiv(q, 10);
    TruncatedOnce(x, fcc);
    assert -9 <= q - 10 * y <= 9;
    Scaled(fcc, q, y);
    assert y >= n <==> q >= 10 * n;
    QuotientReaches(x, fcc, 10 * n);
    assert 10 * n * fcc == 10 * (fcc * n);
  }

  lemma TruncatedOnce(x: int, fcc: int)
    requires fcc > 0
    ensures -fcc < x - fcc * CDiv(x, fcc) < fcc
  {
    var m := Abs(x);
    assert m == m / fcc * fcc + m % fcc;
    assert fcc * (m / fcc) == m / fcc * fcc;
    if x < 0 {
      assert fcc * -(m / fcc) == -(fcc * (m / fcc));
    }
  }

  lemma Scaled(fcc: int, q: int, y: int)
    requires fcc > 0 && -9 <= q - 10 * y <= 9
    ensures -9 * fcc <= fcc * q - 10 * (fcc * y) <= 9 * fcc
  {
    var e := q - 10 * y;
    assert fcc * q == fcc * (10 * y + e) == 10 * (fcc * y) + fcc * e;
    assert fcc * e <= fcc * 9 && fcc * e >= fcc * -9;
  }

  lemma QuotientReaches(x: int, fcc: int, n: nat)
    requires fcc > 0 && n > 0
    ensures CDiv(x, fcc) >= n <==> x >= n * fcc
  {
    if x >= 0 {
      DivBelow(x, n, fcc);
    } else {
      DivBelow(-x, 0, fcc);
      assert n * fcc >= 0;
    }
  }

  lemma SlopeStep(p: Params, g: Gauge, r: ZeroIn)
    requires p.Valid() && g.Valid() && UsableSoc(p, g, r) >= 0 && r.voltage >= p.pwroffVol - 20
    ensures var h := CalcZeroSlope(p, g, r);
      && h.zeroDsoc == g.zeroDsoc && h.dsoc == g.dsoc && h.zeroRemainCap == g.remainCap == h.remainCap
      && h.zeroTimeoutCnt == 0 && h.rsoc == g.rsoc && h.currentAvg == g.currentAvg
  {
    hide UsableSoc, ZeroSlope, VolToCap, MinGap, Percent, OpenVoltage;
  }

  /** What the drain since the last recomputation is worth: slope times capacity drawn. */
  function Worth(g: Gauge): int {
    g.zeroLinek * (g.zeroRemainCap - g.remainCap)
  }

  /** `taken` thousandths of a percent are what `worth` is worth, but for less than one. */
  predicate TakesOff(fcc: int, worth: int, taken: int) {
    -10 * fcc < worth - 10 * (fcc * taken) < 10 * fcc
  }

  lemma ChangeOf(g: Gauge)
    requires g.Valid()
    ensures TakesOff(g.fcc, Worth(g), ZeroChange(g))
    ensures ZeroChange(g) >= 10 <==> Worth(g) >= 100 * g.fcc
  {
    TruncatedTwice(g.zeroLinek * (g.zeroRemainCap - g.remainCap), g.fcc, 10);
  }

  lemma UpdateStep(p: Params, g: Gauge, r: ZeroIn)
    requires p.Valid() && g.Valid() && Plain(p, g, r)
    ensures var h := ZeroUpdate(p, g, r);
      && h.zeroTimeoutCnt == 0 && h.rsoc == g.rsoc && h.remainCap == g.remainCap == h.zeroRemainCap
      && h.currentAvg == g.currentAvg
      && h.zeroDsoc == g.zeroDsoc - ZeroChange(g) && h.dsoc == FollowZero(h.zeroDsoc, g.dsoc)
  {
    UpdateUnfolds(p, g, r);
    var g2 := Followed(g);
    assert g2.Valid();
    UsableStill(p, g, r);
    hide *;
    SlopeStep(p, g2, r);
  }

  /** The state a recomputation finds the slope for. */
  function Followed(g: Gauge): (g': Gauge)
    requires g.Valid()
    ensures g'.fcc == g.fcc && g'.rsoc == g.rsoc && g'.remainCap == g.remainCap && g'.currentAvg == g.currentAvg
    ensures g'.zeroDsoc == g.zeroDsoc - ZeroChange(g) && g'.dsoc == FollowZero(g'.zeroDsoc, g.dsoc)
  {
    hide FollowZero, ZeroChange;
    var z := g.zeroDsoc - ZeroChange(g);
    g.(zeroTimeoutCnt := 0, zeroDsoc := z, dsoc := FollowZero(z, g.dsoc))
  }

  lemma UpdateUnfolds(p: Params, g: Gauge, r: ZeroIn)
    requires p.Valid() && g.Valid()
    ensures ZeroUpdate(p, g, r) == CalcZeroSlope(p, Followed(g), r)
  {
    hide CalcZeroSlope, FollowZero, ZeroChange;
  }

  lemma UsableStill(p: Params, g: Gauge, r: ZeroIn)
    requires p.Valid() && g.Valid() && Plain(p, g, r)
    ensures UsableSoc(p, Followed(g), r) >= 0 && r.voltage >= p.pwroffVol - 20
  {
    hide UsableSoc, Percent, FollowZero, ZeroChange, Followed;
    var d := Followed(g).dsoc;
    assert UsableSoc(p, g.(dsoc := d), r) >= 0;
    SlopeIgnoresRest(p, g.(dsoc := d), Followed(g), r);
  }

  /** A step of zero mode while there is charge to use. It recomputes exactly when the drain
      since the last time is worth ten thousandths of a percent, after a hundred steps
      without, or for a zero slope. Recomputing takes slope times drain over 10 fcc off the
      charge, to less than a thousandth of a percent, pulls the report after it and counts
      on from here; otherwise all of it is carried. */
  lemma ZeroStepLaw(p: Params, g: Gauge, r1: ZeroIn, r2: ZeroIn)
    requires p.Valid() && g.Valid() && Plain(p, g, r1)
    ensures var h, worth := ZeroAlgorithm(p, g, r1, r2), Worth(g);
      && h.fcc == g.fcc
      && (h.zeroTimeoutCnt == 0 <==> worth >= 100 * g.fcc || g.zeroTimeoutCnt >= 100 || g.zeroLinek == 0)
      && h.zeroTimeoutCnt >= 0 && h.rsoc == g.rsoc && h.remainCap == g.remainCap && h.currentAvg == g.currentAvg
      && (h.zeroTimeoutCnt == 0 ==>
            && TakesOff(g.fcc, worth, g.zeroDsoc - h.zeroDsoc)
            && h.zeroRemainCap == g.remainCap
            && h.dsoc == FollowZero(h.zeroDsoc, g.dsoc))
      && (h.zeroTimeoutCnt > 0 ==>
            && h.zeroDsoc == g.zeroDsoc && h.dsoc == g.dsoc && h.zeroLinek == g.zeroLinek
            && h.zeroRemainCap == g.zeroRemainCap)
  {
    var g1 := g.(zeroTimeoutCnt := g.zeroTimeoutCnt + 1);
    assert Worth(g1) == Worth(g);
    hide Worth, TakesOff, FollowZero, Percent, Usable, UsableSoc, ZeroChange, ZeroAlgorithm, ZeroUpdate;
    ChangeOf(g1);
    PlainIgnoresCount(p, g, g1, r1);
    UpdateStep(p, g1, r1);
    PlainAlgorithm(p, g, r1, r2);
  }

  lemma PlainAlgorithm(p: Params, g: Gauge, r1: ZeroIn, r2: ZeroIn)
    requires p.Valid() && g.Valid() && Plain(p, g, r1)
    ensures var g1 := g.(zeroTimeoutCnt := g.zeroTimeoutCnt + 1);
      ZeroAlgorithm(p, g, r1, r2)
      == if ZeroChange(g1) >= 10 || g.zeroTimeoutCnt >= 100 || g.zeroLinek == 0 then ZeroUpdate(p, g1, r1) else g1
  {
    var g1 := g.(zeroTimeoutCnt := g.zeroTimeoutCnt + 1);
    hide FollowZero, UsableSoc, ZeroChange, CDiv, InitCoulomb, CalcZeroSlope, ZeroUpdate, Usable;
    PlainIgnoresCount(p, g, g1, r1);
    UpdateStep(p, g1, r1);
    hide Plain;
  }

  lemma PlainIgnoresCount(p: Params, g: Gauge, h: Gauge, r: ZeroIn)
    requires p.Valid() && Plain(p, g, r) && h == g.(zeroTimeoutCnt := h.zeroTimeoutCnt) && h.zeroTimeoutCnt >= 0
    ensures Plain(p, h, r)
  {
    hide UsableSoc;
    forall d: int ensures UsableSoc(p, h.(dsoc := d), r) >= 0 {
      SlopeIgnoresRest(p, g.(dsoc := d), h.(dsoc := d), r);
    }
  }

  lemma SlopeIgnoresRest(p: Params, g: Gauge, h: Gauge, r: ZeroIn)
    requires p.Valid() && g.dsoc == h.dsoc && g.currentAvg == h.currentAvg
    ensures UsableSoc(p, g, r) == UsableSoc(p, h, r)
  {
    hide VolToSoc, CDiv;
  }

  // ----- runs

  /** One tick in zero mode: the counter read before it, and the readings of its step. */
  datatype Reading = Reading(cap: int, r1: ZeroIn, r2: ZeroIn)

  function At(g: Gauge, x: Reading): (h: Gauge)
    ensures h.fcc == g.fcc && h == g.(remainCap := x.cap)
  {
    g.(remainCap := x.cap)
  }

  function ZeroTo(p: Params, g: Gauge, x: Reading): (h: Gauge)
    requires p.Valid() && g.Valid()
    ensures h.fcc == g.fcc && h.Valid()
  {
    ZeroAlgorithm(p, At(g, x), x.r1, x.r2)
  }

  /** There is charge to use at every tick. */
  ghost predicate PlainRun(p: Params, g: Gauge, xs: seq<Reading>)
    requires p.Valid() && g.Valid()
    decreases xs
  {
    xs == [] || (Plain(p, At(g, xs[0]), xs[0].r1) && PlainRun(p, ZeroTo(p, g, xs[0]), xs[1..]))
  }

  function ZeroRun(p: Params, g: Gauge, xs: seq<Reading>): (h: Gauge)
    requires p.Valid() && g.Valid()
    ensures h.fcc == g.fcc
    decreases xs
  {
    if xs == [] then g else ZeroRun(p, ZeroTo(p, g, xs[0]), xs[1..])
  }

  /** How many ticks recompute. */
  function Recounts(p: Params, g: Gauge, xs: seq<Reading>): nat
    requires p.Valid() && g.Valid()
    decreases xs
  {
    if xs == [] then 0
    else
      var h := ZeroTo(p, g, xs[0]);
      (if h.zeroTimeoutCnt == 0 then 1 else 0) + Recounts(p, h, xs[1..])
  }

  /** What the drains they count are worth, each at the slope of its time. */
  function WorthDrawn(p: Params, g: Gauge, xs: seq<Reading>): int
    requires p.Valid() && g.Valid()
    decreases xs
  {
    if xs == [] then 0
    else
      var h := ZeroTo(p, g, xs[0]);
      (if h.zeroTimeoutCnt == 0 then Worth(At(g, xs[0])) else 0) + WorthDrawn(p, h, xs[1..])
  }

  /** And how much capacity those drains are. */
  function Drawn(p: Params, g: Gauge, xs: seq<Reading>): int
    requires p.Valid() && g.Valid()
    decreases xs
  {
    if xs == [] then 0
    else
      var h := ZeroTo(p, g, xs[0]);
      (if h.zeroTimeoutCnt == 0 then g.zeroRemainCap - xs[0].cap else 0) + Drawn(p, h, xs[1..])
  }

  /** As TakesOff, for n recomputations. */
  predicate TakesOffIn(fcc: int, worth: int, taken: int, n: nat) {
    if n == 0 then worth == 0 && taken == 0
    else -(10 * fcc * n) < worth - 10 * (fcc * taken) < 10 * fcc * n
  }

  lemma FccPositive(g: Gauge)
    requires g.Valid()
    ensures g.fcc > 0
  {
  }

  lemma NoneTaken(fcc: int)
    ensures TakesOffIn(fcc, 0, 0, 0)
  {
  }

  lemma OneMore(fcc: int, worth: int, taken: int, n: nat, worth1: int, taken1: int)
    requires fcc > 0 && TakesOffIn(fcc, worth, taken, n) && TakesOff(fcc, worth1, taken1)
    ensures TakesOffIn(fcc, worth1 + worth, taken1 + taken, n + 1)
  {
    assert fcc * (taken1 + taken) == fcc * taken1 + fcc * taken;
    assert 10 * fcc * (n + 1) == 10 * fcc * n + 10 * fcc;
    if n == 0 {
      assert fcc * taken == 0;
    }
  }

  /** Zero mode follows the drain: over any run with charge to use, the charge falls by what
      the counted drains are worth at 10 fcc to the thousandth of a percent, to less than
      one per recomputation. */
  lemma {:induction false} ZeroRunLaw(p: Params, g: Gauge, xs: seq<Reading>)
    requires p.Valid() && g.Valid() && PlainRun(p, g, xs)
    ensures TakesOffIn(g.fcc, WorthDrawn(p, g, xs), g.zeroDsoc - ZeroRun(p, g, xs).zeroDsoc, Recounts(p, g, xs))
    decreases xs
  {
    hide *;
    FccPositive(g);
    if xs == [] {
      NoTick(p, g);
      NoneTaken(g.fcc);
    } else {
      var x, rest := xs[0], xs[1..];
      var h := ZeroTo(p, g, x);
      FirstTick(p, g, xs);
      ZeroToLaw(p, g, x);
      ZeroRunLaw(p, h, rest);
      var taken, later := g.zeroDsoc - h.zeroDsoc, h.zeroDsoc - ZeroRun(p, h, rest).zeroDsoc;
      if h.zeroTimeoutCnt == 0 {
        OneMore(g.fcc, WorthDrawn(p, h, rest), later, Recounts(p, h, rest), Worth(At(g, x)), taken);
      }
    }
  }

  lemma FirstTick(p: Params, g: Gauge, xs: seq<Reading>)
    requires p.Valid() && g.Valid() && PlainRun(p, g, xs) && xs != []
    ensures var h, rest := ZeroTo(p, g, xs[0]), xs[1..];
      && Plain(p, At(g, xs[0]), xs[0].r1) && PlainRun(p, h, rest)
      && ZeroRun(p, g, xs) == ZeroRun(p, h, rest)
      && Recounts(p, g, xs) == (if h.zeroTimeoutCnt == 0 then 1 else 0) + Recounts(p, h, rest)
      && WorthDrawn(p, g, xs) == (if h.zeroTimeoutCnt == 0 then Worth(At(g, xs[0])) else 0) + WorthDrawn(p, h, rest)
      && Drawn(p, g, xs) == (if h.zeroTimeoutCnt == 0 then g.zeroRemainCap - xs[0].cap else 0) + Drawn(p, h, rest)
  {
    hide ZeroTo, Plain, Worth;
  }

  lemma ZeroToLaw(p: Params, g: Gauge, x: Reading)
    requires p.Valid() && g.Valid() && Plain(p, At(g, x), x.r1)
    ensures var h := ZeroTo(p, g, x);
      && h.remainCap == x.cap && h.zeroTimeoutCnt >= 0
      && (h.zeroTimeoutCnt == 0 ==>
            TakesOff(g.fcc, Worth(At(g, x)), g.zeroDsoc - h.zeroDsoc) && h.zeroRemainCap == x.cap)
      && (h.zeroTimeoutCnt > 0 ==>
            && h.zeroDsoc == g.zeroDsoc && h.zeroLinek == g.zeroLinek && h.zeroRemainCap == g.zeroRemainCap)
      && Worth(h) < 100 * h.fcc
  {
    hide ZeroAlgorithm, TakesOff, FollowZero, Plain, Percent;
    ZeroStepLaw(p, At(g, x), x.r1, x.r2);
    var h := ZeroTo(p, g, x);
    if h.zeroTimeoutCnt == 0 {
      assert h.zeroLinek * 0 == 0;
    }
  }

  /** Nothing is lost between recomputations: the counted drains add up to all of the
      capacity drawn, but for what is carried, which is worth less than ten thousandths. */
  lemma {:induction false} DrainCarried(p: Params, g: Gauge, xs: seq<Reading>)
    requires p.Valid() && g.Valid() && PlainRun(p, g, xs) && xs != []
    ensures var h := ZeroRun(p, g, xs);
      && Drawn(p, g, xs) == g.zeroRemainCap - h.zeroRemainCap
      && h.remainCap == xs[|xs| - 1].cap && Worth(h) < 100 * h.fcc
    decreases xs
  {
    var x, rest := xs[0], xs[1..];
    var h := ZeroTo(p, g, x);
    hide *;
    FirstTick(p, g, xs);
    ZeroToLaw(p, g, x);
    if rest == [] {
      NoTick(p, h);
    } else {
      DrainCarried(p, h, rest);
    }
  }

  lemma NoTick(p: Params, g: Gauge)
    requires p.Valid() && g.Valid()
    ensures ZeroRun(p, g, []) == g && Recounts(p, g, []) == WorthDrawn(p, g, []) == Drawn(p, g, []) == 0
  {
  }

  // ----- entering zero mode, and the empty counter

  /** On entering zero mode its charge is the smoothed one, unless both show the same
      percent already. */
  lemma PreparedZero(p: Params, g: Gauge, r: ZeroIn)
    requires p.Valid() && g.Valid() && UsableSoc(p, g, r) >= 0 && r.voltage >= p.pwroffVol - 20
    ensures var h := ZeroPrepare(p, g, r);
      && Percent(h.zeroDsoc) == Percent(g.smoothSoc)
      && h.zeroDsoc == (if Percent(g.zeroDsoc) == Percent(g.smoothSoc) then g.zeroDsoc else g.smoothSoc)
      && h.zeroRemainCap == g.remainCap && h.dsoc == g.dsoc
  {
    hide CalcZeroSlope, UsableSoc, Percent;
    var g1 := g.(zeroDsoc := g.smoothSoc);
    SlopeIgnoresRest(p, g, g1, r);
    SlopeStep(p, g, r);
    SlopeStep(p, g1, r);
  }

  lemma CalcKeepsRest(p: Params, g: Gauge, r: ZeroIn)
    requires p.Valid() && g.Valid()
    ensures CalcZeroSlope(p, g, r).remainCap == g.remainCap == CalcZeroSlope(p, g, r).zeroRemainCap
  {
    hide UsableSoc, ZeroSlope, VolToCap, MinGap, Percent, OpenVoltage, ShutdownVoltage;
  }

  /** A counter that reads below one percent while the voltage says more is seeded anew from
      the voltage, and drains count on from there. */
  lemma EmptyCounterReseeded(p: Params, g: Gauge, r1: ZeroIn, r2: ZeroIn)
    requires p.Valid() && g.Valid() && 0 <= g.zeroOcvCap <= MAX_INT
    requires Worth(g) < 100 * g.fcc && 0 <= g.zeroTimeoutCnt < 100 && g.zeroLinek != 0
    ensures var h := ZeroAlgorithm(p, g, r1, r2);
      if g.rsoc < 1000 && g.zeroOcvCap > g.fcc / 100
      then h.remainCap == h.zeroRemainCap == g.zeroOcvCap * 1000
      else h.remainCap == g.remainCap && h.zeroRemainCap == g.zeroRemainCap
  {
    hide *;
    var g1 := Ticked(g);
    FccPositive(g);
    NotDue(p, g, r1, r2);
    BelowOnePercent(g.rsoc);
    SeededFrom(g1, g.zeroOcvCap);
    CalcKeepsRest(p, InitCoulomb(g1, g.zeroOcvCap), r2);
  }

  function Ticked(g: Gauge): (h: Gauge)
    requires g.Valid()
    ensures h == g.(zeroTimeoutCnt := g.zeroTimeoutCnt + 1) && h.Valid()
  {
    g.(zeroTimeoutCnt := g.zeroTimeoutCnt + 1)
  }

  lemma NotDue(p: Params, g: Gauge, r1: ZeroIn, r2: ZeroIn)
    requires p.Valid() && g.Valid()
    requires Worth(g) < 100 * g.fcc && 0 <= g.zeroTimeoutCnt < 100 && g.zeroLinek != 0
    ensures ZeroAlgorithm(p, g, r1, r2)
         == if Percent(g.rsoc) < 1 && g.zeroOcvCap > g.fcc / 100
            then CalcZeroSlope(p, InitCoulomb(Ticked(g), g.zeroOcvCap), r2) else Ticked(g)
  {
    hide Worth, TakesOff, ZeroChange, CalcZeroSlope, ZeroUpdate, Percent, InitCoulomb;
    WorthTicked(g);
    ChangeOf(Ticked(g));
  }

  lemma WorthTicked(g: Gauge)
    requires g.Valid()
    ensures Worth(Ticked(g)) == Worth(g)
  {
  }

  lemma BelowOnePercent(soc: int)
    ensures Percent(soc) < 1 <==> soc < 1000
  {
  }

  lemma SeededFrom(g: Gauge, cap: int)
    requires g.Valid() && 0 <= cap <= MAX_INT
    ensures InitCoulomb(g, cap).remainCap == cap * 1000 && InitCoulomb(g, cap).Valid()
  {
    hide ToI32;
  }
}

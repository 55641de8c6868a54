// The baud-rate divisor of the CH343: a reference clock is picked from the requested
// rate, and a divisor between 1 and 255 is chosen for it with unsigned arithmetic.

module Ch343Divisor {
  import opened Arith

  const MAX_RATE: nat := 6000000
  const MIN_RATE: nat := 46

  /** The reference clock for a rate. */
  function Clock(rate: nat): (c: nat)
    ensures c > 0
  {
    if rate in {6000000, 4000000, 2400000, 921600, 307200, 256000} then 12000000
    else if rate > 6000000 / 255 then 6000000
    else if rate > 750000 / 255 then 750000
    else if rate > 93750 / 255 then 93750
    else 11719
  }

  function Prescaler(c: nat): nat {
    if c == 12000000 then 7 else if c == 6000000 then 3 else if c == 750000 then 2
    else if c == 93750 then 1 else 0
  }

  /** Unsigned 64-bit subtraction. */
  function Sub64(x: nat, y: nat): nat {
    (x - y) % 0x1_0000_0000_0000_0000
  }

  function Error(c: nat, k: nat, rate: nat): nat
    requires k > 0
  {
    if c / k >= rate then c / k - rate else rate - c / k
  }

  /** No divisor the hardware offers comes closer to the rate. */
  ghost predicate Best(c: nat, k: nat, rate: nat) {
    1 <= k <= 255 && forall j :: 1 <= j <= 255 ==> Error(c, k, rate) <= Error(c, j, rate)
  }

  /** The nearer of a quotient's two divisors, by unsigned differences. */
  function Nearer(c: nat, a: nat, rate: nat): nat
    requires a > 0
  {
    if Sub64(c / a, rate) > Sub64(rate, c / (a + 1)) then a + 1 else a
  }

  /** The divisor the driver settles on, 0 standing for the error return. */
  function Chosen(rate: nat): nat
    requires rate > 0
  {
    var c := Clock(rate);
    var a := c / rate % 256;
    if a == 0 || a == 255 then 0 else Nearer(c, a, rate)
  }

  method SelectClock(bval: nat) returns (b: nat, c: nat)
    ensures c == Clock(bval) && b == Prescaler(c)
  {
    if bval == 6000000 || bval == 4000000 || bval == 2400000
       || bval == 921600 || bval == 307200 || bval == 256000 {
      b, c := 7, 12000000;
    } else if bval > 6000000 / 255 {
      b, c := 3, 6000000;
    } else if bval > 750000 / 255 {
      b, c := 2, 750000;
    } else if bval > 93750 / 255 {
      b, c := 1, 93750;
    } else {
      b, c := 0, 11719;
    }
  }

  method ChooseDivisor(bval: nat) returns (ok: bool, fct: nat, dvs: nat)
    requires bval > 0
    ensures ok <==> Chosen(bval) != 0
    ensures ok ==> fct == 256 - Chosen(bval) && dvs == Prescaler(Clock(bval))
    ensures MIN_RATE <= bval <= MAX_RATE ==>
              ok && 1 <= fct <= 255 && Best(Clock(bval), 256 - fct, bval)
  {
    hide Sub64, Prescaler, Clock, Best;
    ChosenInRange(bval);
    var b, c := SelectClock(bval);
    var a := c / bval % 256;
    if a == 0 || a == 0xFF {
      return false, 0, 0;
    }
    if Sub64(c / a, bval) > Sub64(bval, c / (a + 1)) {
      a := a + 1;
    }
    a := 256 - a;
    return true, a, b;
  }

  lemma ChosenInRange(rate: nat)
    requires rate > 0
    ensures MIN_RATE <= rate <= MAX_RATE ==>
              1 <= Chosen(rate) <= 255 && Best(Clock(rate), Chosen(rate), rate)
  {
    if MIN_RATE <= rate <= MAX_RATE {
      ChosenIsBest(rate);
    }
  }

  // ----- optimality

  /** In the supported range the quotient fits the divisor register. */
  lemma QuotientFits(rate: nat)
    requires MIN_RATE <= rate <= MAX_RATE
    ensures rate <= Clock(rate) <= 12000000
    ensures 1 <= Clock(rate) / rate <= 254
    ensures rate <= 23529 ==> 31 <= Clock(rate) / rate
  {
    var c := Clock(rate);
    DivBelow(c, 1, rate);
    DivBelow(c, 255, rate);
    DivBelow(c, 31, rate);
  }

  /** The two candidates bracket the rate. */
  lemma Bracket(c: nat, rate: nat)
    requires rate > 0 && c >= rate
    ensures var a := c / rate;
      a >= 1 && c / (a + 1) < rate <= c / a && c < (a + 1) * rate
  {
    DivBelow(c, 1, rate);
    var a := c / rate;
    DivBelow(c, a, rate);
    DivBelow(c, a + 1, rate);
    assert rate * a == a * rate && rate * (a + 1) == (a + 1) * rate;
    DivBelow(c, rate, a);
    DivBelow(c, rate, a + 1);
  }

  /** Neither subtraction wraps, so the driver compares the two distances. */
  lemma ChosenCompares(rate: nat)
    requires MIN_RATE <= rate <= MAX_RATE
    ensures var c, a := Clock(rate), Clock(rate) / rate;
      && 1 <= a <= 254
      && c / (a + 1) < rate <= c / a
      && Chosen(rate) == (if c / a - rate > rate - c / (a + 1) then a + 1 else a)
  {
    hide Clock, Nearer;
    var c := Clock(rate);
    var a := c / rate;
    QuotientFits(rate);
    Bracket(c, rate);
    NearerCompares(c, a, rate);
    FitsByte(a);
  }

  lemma FitsByte(a: nat)
    requires a < 256
    ensures a % 256 == a
  {
  }

  lemma NearerCompares(c: nat, a: nat, rate: nat)
    requires a > 0 && c / (a + 1) < rate <= c / a && rate <= c <= 12000000
    ensures Nearer(c, a, rate) == if c / a - rate > rate - c / (a + 1) then a + 1 else a
  {
    hide Sub64;
    DivAntitone(c, 1, a);
    assert c / 1 == c;
    NoWrap(c / a, rate);
    NoWrap(rate, c / (a + 1));
  }

  lemma NoWrap(x: nat, y: nat)
    requires y <= x < 0x1_0000_0000_0000_0000
    ensures Sub64(x, y) == x - y
  {
  }

  lemma ChosenIsBest(rate: nat)
    requires MIN_RATE <= rate <= MAX_RATE
    ensures Best(Clock(rate), Chosen(rate), rate)
  {
    var c := Clock(rate);
    var a := c / rate;
    ChosenCompares(rate);
    hide Clock, Chosen, Sub64;
    forall j | 1 <= j <= 255
      ensures Error(c, Chosen(rate), rate) <= Error(c, j, rate)
    {
      if j <= a {
        DivAntitone(c, j, a);
      } else {
        DivAntitone(c, a + 1, j);
      }
    }
  }

  /** For rates served from the three slow clocks the miss is below (rate/31 + 1)/2. */
  lemma ErrorBound(rate: nat)
    requires MIN_RATE <= rate <= 23529
    ensures var k := Chosen(rate); k > 0 && 62 * Error(Clock(rate), k, rate) < rate + 31
  {
    var c := Clock(rate);
    var a := c / rate;
    QuotientFits(rate);
    Bracket(c, rate);
    ChosenCompares(rate);
    hide Clock, Chosen;
    Spread(c, a, rate);
  }

  /** Adjacent divisors of a clock are at most rate/a + 1 apart. */
  lemma Spread(c: nat, a: nat, rate: nat)
    requires a >= 31 && c < (a + 1) * rate
    ensures 31 * (c / a - c / (a + 1)) < rate + 31
  {
    var hi, lo := c / a, c / (a + 1);
    DivBelow(c, hi, a);
    DivBelow(c, lo, a + 1);
    DivBelow(c, lo + 1, a + 1);
    GapBelow(c, a, hi, lo);
    var gap: nat := if hi > lo then hi - lo - 1 else 0;
    hide *;
    if lo >= rate {
      MulMonotone(rate, lo, a + 1);
      assert false;
    }
    MulMonotone(31, a, gap);
  }

  lemma GapBelow(c: nat, a: nat, hi: nat, lo: nat)
    requires hi * a <= c < (lo + 1) * (a + 1)
    ensures a * (hi - lo - 1) <= lo
  {
  }

  // ----- clocks

  /** The prescaler code names the clock: code 7 is 12 MHz, and every other code divides
      6 MHz by eight for each step below 3, to the nearest hertz. */
  lemma PrescalerNames(rate: nat)
    ensures var c, b := Clock(rate), Prescaler(Clock(rate));
      && b in {0, 1, 2, 3, 7}
      && (b == 7 ==> c == 2 * 6000000)
      && (b != 7 ==> var d := if b == 3 then 1 else if b == 2 then 8 else if b == 1 then 64 else 512;
            c == (6000000 + d / 2) / d)
  {
  }

  /** But for six rates, the fastest clock is taken that 255 divides below the rate. */
  lemma FastestClock(rate: nat)
    requires rate !in {6000000, 4000000, 2400000, 921600, 307200, 256000}
    ensures Clock(rate) in {6000000, 750000, 93750, 11719}
    ensures Clock(rate) != 11719 ==> Clock(rate) / 255 < rate
    ensures forall c :: c in {6000000, 750000, 93750} && c > Clock(rate) ==> c / 255 >= rate
  {
  }

  /** Those six are served from 12 MHz, at least as well as 6 MHz could. */
  lemma SpecialRates(rate: nat, j: nat)
    requires rate in {6000000, 4000000, 2400000, 921600, 307200, 256000} && 1 <= j <= 255
    ensures Clock(rate) == 12000000 && 1 <= Chosen(rate) <= 255
    ensures Error(12000000, Chosen(rate), rate) <= Error(6000000, j, rate)
  {
    ChosenIsBest(rate);
    ChosenInRange(rate);
    hide Chosen;
    if 2 * j <= 255 {
      HalfClock(j);
      assert Error(12000000, Chosen(rate), rate) <= Error(12000000, 2 * j, rate);
    } else {
      DivAntitone(6000000, 127, j);
      assert 6000000 / 127 == 47244;
      assert 12000000 / 47 == 255319 && 12000000 / 39 == 307692 && 12000000 / 13 == 923076;
      assert Error(12000000, Chosen(rate), rate) <= Error(12000000, 47, rate);
      assert Error(12000000, Chosen(rate), rate) <= Error(12000000, 39, rate);
      assert Error(12000000, Chosen(rate), rate) <= Error(12000000, 13, rate);
      assert Error(12000000, Chosen(rate), rate) <= Error(12000000, 5, rate);
      assert Error(12000000, Chosen(rate), rate) <= Error(12000000, 3, rate);
      assert Error(12000000, Chosen(rate), rate) <= Error(12000000, 2, rate);
    }
  }

  lemma HalfClock(j: nat)
    requires j > 0
    ensures 12000000 / (2 * j) == 6000000 / j
  {
    var q := 6000000 / j;
    DivBelow(6000000, q, j);
    DivBelow(6000000, q + 1, j);
    assert q * (2 * j) == 2 * (q * j) && (q + 1) * (2 * j) == 2 * ((q + 1) * j);
    DivBelow(12000000, q, 2 * j);
    DivBelow(12000000, q + 1, 2 * j);
  }

  // ----- exactly when the choice is optimal

  /** No slow rate truncates to a quotient the driver refuses. */
  lemma SlowResidue(rate: nat)
    requires 1 <= rate < MIN_RATE
    ensures 1 <= 11719 / rate % 256 <= 253
  {
    match rate {
      case 1 => assert 11719 / 1 == 11719; case 2 => assert 11719 / 2 == 5859; case 3 => assert 11719 / 3 == 3906;
      case 4 => assert 11719 / 4 == 2929; case 5 => assert 11719 / 5 == 2343; case 6 => assert 11719 / 6 == 1953;
      case 7 => assert 11719 / 7 == 1674; case 8 => assert 11719 / 8 == 1464; case 9 => assert 11719 / 9 == 1302;
      case 10 => assert 11719 / 10 == 1171; case 11 => assert 11719 / 11 == 1065; case 12 => assert 11719 / 12 == 976;
      case 13 => assert 11719 / 13 == 901; case 14 => assert 11719 / 14 == 837; case 15 => assert 11719 / 15 == 781;
      case 16 => assert 11719 / 16 == 732; case 17 => assert 11719 / 17 == 689; case 18 => assert 11719 / 18 == 651;
      case 19 => assert 11719 / 19 == 616; case 20 => assert 11719 / 20 == 585; case 21 => assert 11719 / 21 == 558;
      case 22 => assert 11719 / 22 == 532; case 23 => assert 11719 / 23 == 509; case 24 => assert 11719 / 24 == 488;
      case 25 => assert 11719 / 25 == 468; case 26 => assert 11719 / 26 == 450; case 27 => assert 11719 / 27 == 434;
      case 28 => assert 11719 / 28 == 418; case 29 => assert 11719 / 29 == 404; case 30 => assert 11719 / 30 == 390;
      case 31 => assert 11719 / 31 == 378; case 32 => assert 11719 / 32 == 366; case 33 => assert 11719 / 33 == 355;
      case 34 => assert 11719 / 34 == 344; case 35 => assert 11719 / 35 == 334; case 36 => assert 11719 / 36 == 325;
      case 37 => assert 11719 / 37 == 316; case 38 => assert 11719 / 38 == 308; case 39 => assert 11719 / 39 == 300;
      case 40 => assert 11719 / 40 == 292; case 41 => assert 11719 / 41 == 285; case 42 => assert 11719 / 42 == 279;
      case 43 => assert 11719 / 43 == 272; case 44 => assert 11719 / 44 == 266; case 45 => assert 11719 / 45 == 260;
    }
  }

  /** Below the supported range the quotient is truncated to eight bits and the divisor
      misses the rate by more than the largest divisor would. */
  lemma SlowRateMissed(rate: nat)
    requires 1 <= rate < MIN_RATE
    ensures 1 <= Chosen(rate) <= 254
    ensures Error(11719, 255, rate) < Error(11719, Chosen(rate), rate)
  {
    SlowResidue(rate);
    var k := Chosen(rate);
    DivAntitone(11719, k, 254);
    assert 11719 / 254 == 46 && 11719 / 255 == 45;
  }

  /** The driver's divisor is the best one for exactly the rates 46 to 6000000. */
  lemma OptimalIff(rate: nat)
    requires rate > 0
    ensures Best(Clock(rate), Chosen(rate), rate) <==> MIN_RATE <= rate <= MAX_RATE
  {
    hide Best, Chosen, Clock;
    if rate > MAX_RATE {
      FastRateRefused(rate);
    } else if rate < MIN_RATE {
      SlowRateNotBest(rate);
    } else {
      ChosenIsBest(rate);
    }
  }

  lemma FastRateRefused(rate: nat)
    requires rate > MAX_RATE
    ensures Chosen(rate) == 0 && !Best(Clock(rate), Chosen(rate), rate)
  {
    hide Sub64, Error;
    assert Clock(rate) / rate == 0;
  }

  lemma SlowRateNotBest(rate: nat)
    requires 1 <= rate < MIN_RATE
    ensures !Best(Clock(rate), Chosen(rate), rate)
  {
    hide Chosen, Error, Sub64;
    SlowRateMissed(rate);
    assert Clock(rate) == 11719;
  }
}

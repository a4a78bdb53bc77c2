/**
 The decay model: each dose decays exponentially from its timestamp, doses
 superpose linearly, and a dose stamped a full minute or more after the
 evaluation time contributes nothing. Also the crash predictor built on it.

 The source's `caffeine_decay` and `predicted_crash` hard-code a 5-hour
 half-life and a 10 mg crash level, and its `total_caffeine` takes no
 sensitivity. Here the total takes the half-life as a parameter:
 `SourceHalfLifeHours` reproduces `total_caffeine` as written, and the sleep
 predictor passes the user's half-life, as its own call site asks for.
 */
module Caffeine {
  import opened RealMath
  import opened Time
  import opened DoseModel

  /** The half-life hard-coded in `caffeine_decay` and `predicted_crash`. */
  const SourceHalfLifeHours: real := 5.0

  /** The crash level hard-coded in `predicted_crash`; it does not consult a
      sensitivity's crash threshold. */
  const CrashLevelMg: real := 10.0

  /** The first-order decay constant, ln 2 over the half-life. */
  function DecayRate(m: Elementary, halfLifeHours: real): real
    requires halfLifeHours != 0.0
  {
    m.ln(2.0) / halfLifeHours
  }

  /** What remains of `c0` milligrams after `hours` hours at decay rate `k`. */
  function DecayWithRate(m: Elementary, c0: real, k: real, hours: real): real
  {
    c0 * m.exp(-k * hours)
  }

  /** What remains of `c0` milligrams after `hours` hours. */
  function DecayAt(m: Elementary, c0: real, hours: real, halfLifeHours: real): real
    requires halfLifeHours != 0.0
  {
    DecayWithRate(m, c0, DecayRate(m, halfLifeHours), hours)
  }

  /** `caffeine_decay`: decay with the hard-coded 5-hour half-life. */
  function CaffeineDecay(m: Elementary, c0: real, hours: real): real
  {
    DecayAt(m, c0, hours, SourceHalfLifeHours)
  }

  /** A dose is still in the future at `t` when the whole minutes from it to
      `t` are negative. */
  predicate IsFuture(d: Dose, t: Instant) {
    HoursBetween(d.time, t) < 0.0
  }

  /** What one dose contributes at time `t`. */
  function Contribution(m: Elementary, d: Dose, t: Instant, halfLifeHours: real): real
    requires halfLifeHours != 0.0
  {
    if IsFuture(d, t) then 0.0 else DecayAt(m, d.mg, HoursBetween(d.time, t), halfLifeHours)
  }

  /** `total_caffeine`: the sum of every dose's contribution at `t`. */
  function TotalCaffeine(m: Elementary, doses: seq<Dose>, t: Instant, halfLifeHours: real): real
    requires halfLifeHours != 0.0
  {
    if doses == [] then 0.0
    else Contribution(m, doses[0], t, halfLifeHours) + TotalCaffeine(m, doses[1..], t, halfLifeHours)
  }

  /** `total_caffeine` exactly as the source writes it, with the 5-hour half-life. */
  function SourceTotalCaffeine(m: Elementary, doses: seq<Dose>, t: Instant): real
  {
    TotalCaffeine(m, doses, t, SourceHalfLifeHours)
  }

  /** The doses already taken at `t`, in their original order. */
  function ActiveAt(doses: seq<Dose>, t: Instant): (r: seq<Dose>)
    ensures |r| <= |doses|
    ensures forall i :: 0 <= i < |r| ==> !IsFuture(r[i], t)
    ensures forall i :: 0 <= i < |doses| && !IsFuture(doses[i], t) ==> doses[i] in r
    ensures forall d :: d in r ==> d in doses
    ensures forall d :: multiset(r)[d] == if IsFuture(d, t) then 0 else multiset(doses)[d]
  {
    assert doses != [] ==> doses == [doses[0]] + doses[1..];
    if doses == [] then []
    else if IsFuture(doses[0], t) then ActiveAt(doses[1..], t)
    else [doses[0]] + ActiveAt(doses[1..], t)
  }

  // ----- single-dose decay -----

  /** A dose counts exactly as a future one when it is stamped a full minute
      or more after `t`. */
  lemma FutureIff(d: Dose, t: Instant)
    ensures IsFuture(d, t) <==> d.time >= t + 60
  {
    HoursNegativeIff(d.time, t);
  }

  /** At zero elapsed time nothing has decayed. */
  lemma DecayAtStart(m: Elementary, c0: real, halfLifeHours: real)
    requires Lawful(m)
    requires halfLifeHours != 0.0
    ensures DecayAt(m, c0, 0.0, halfLifeHours) == c0
  {
    assert -DecayRate(m, halfLifeHours) * 0.0 == 0.0;
  }

  /** After one half-life, half remains. */
  lemma DecayAtHalfLife(m: Elementary, c0: real, halfLifeHours: real)
    requires Lawful(m)
    requires halfLifeHours != 0.0
    ensures DecayAt(m, c0, halfLifeHours, halfLifeHours) == c0 / 2.0
  {
    assert -DecayRate(m, halfLifeHours) * halfLifeHours == -m.ln(2.0);
    ExpMinusLnTwo(m);
  }

  /** `caffeine_decay` halves its input every five hours. */
  lemma CaffeineDecayHalvesInFiveHours(m: Elementary, c0: real)
    requires Lawful(m)
    ensures CaffeineDecay(m, c0, 5.0) == c0 / 2.0
    ensures CaffeineDecay(m, c0, 0.0) == c0
  {
    DecayAtHalfLife(m, c0, SourceHalfLifeHours);
    DecayAtStart(m, c0, SourceHalfLifeHours);
  }

  /** A positive amount strictly decreases as time passes. */
  lemma DecayStrictlyDecreasing(m: Elementary, c0: real, h1: real, h2: real, halfLifeHours: real)
    requires Lawful(m)
    requires halfLifeHours > 0.0 && c0 > 0.0
    requires h1 < h2
    ensures DecayAt(m, c0, h2, halfLifeHours) < DecayAt(m, c0, h1, halfLifeHours)
  {
    DecayRatePositive(m, halfLifeHours);
    RateDecayStrictlyDecreasing(m, c0, DecayRate(m, halfLifeHours), h1, h2);
  }

  /** At a positive rate a positive amount strictly decreases as time passes. */
  lemma RateDecayStrictlyDecreasing(m: Elementary, c0: real, k: real, h1: real, h2: real)
    requires Lawful(m)
    requires k > 0.0 && c0 > 0.0
    requires h1 < h2
    ensures DecayWithRate(m, c0, k, h2) < DecayWithRate(m, c0, k, h1)
  {
    ExpOfLaterIsSmaller(m, k, h1, h2);
    SmallerFactorDecaysFurther(m, c0, k, h1, h2);
  }

  /** A positive amount scaled by a smaller decay factor is smaller. */
  lemma SmallerFactorDecaysFurther(m: Elementary, c0: real, k: real, h1: real, h2: real)
    requires c0 > 0.0
    requires m.exp(-k * h2) < m.exp(-k * h1)
    ensures DecayWithRate(m, c0, k, h2) < DecayWithRate(m, c0, k, h1)
  {
    ScalePositiveStrict(c0, m.exp(-k * h2), m.exp(-k * h1));
    assert DecayWithRate(m, c0, k, h2) == c0 * m.exp(-k * h2);
    assert DecayWithRate(m, c0, k, h1) == c0 * m.exp(-k * h1);
  }

  /** At a positive rate, the decay factor at a later time is strictly smaller. */
  lemma ExpOfLaterIsSmaller(m: Elementary, k: real, h1: real, h2: real)
    requires Lawful(m)
    requires k > 0.0 && h1 < h2
    ensures m.exp(-k * h2) < m.exp(-k * h1)
  {
    ScaleStrict(k, h1, h2);
  }

  /** A positive rate turns a later time into a strictly smaller exponent. */
  lemma ScaleStrict(k: real, a: real, b: real)
    requires k > 0.0 && a < b
    ensures -k * b < -k * a
  {
  }

  /** Scaling by a positive amount keeps a strict order. */
  lemma ScalePositiveStrict(c: real, x: real, y: real)
    requires c > 0.0 && x < y
    ensures c * x < c * y
  {
  }

  /** A non-negative amount stays between 0 and its initial value. */
  lemma DecayBounded(m: Elementary, c0: real, hours: real, halfLifeHours: real)
    requires Lawful(m)
    requires halfLifeHours > 0.0 && c0 >= 0.0 && hours >= 0.0
    ensures 0.0 <= DecayAt(m, c0, hours, halfLifeHours) <= c0
  {
    DecayRatePositive(m, halfLifeHours);
    RateDecayBounded(m, c0, DecayRate(m, halfLifeHours), hours);
  }

  /** At a non-negative rate a non-negative amount stays between 0 and its
      initial value. */
  lemma RateDecayBounded(m: Elementary, c0: real, k: real, hours: real)
    requires Lawful(m)
    requires k >= 0.0 && c0 >= 0.0 && hours >= 0.0
    ensures 0.0 <= DecayWithRate(m, c0, k, hours) <= c0
  {
    NegProductNonPositive(k, hours);
    ExpAtMostOne(m, -k * hours);
    var e := m.exp(-k * hours);
    ScaleByFraction(c0, e);
    assert DecayWithRate(m, c0, k, hours) == c0 * e;
  }

  /** With a positive half-life the decay rate is positive. */
  lemma DecayRatePositive(m: Elementary, halfLifeHours: real)
    requires Lawful(m)
    requires halfLifeHours > 0.0
    ensures DecayRate(m, halfLifeHours) > 0.0
  {
    LnTwoPositive(m);
  }

  /** A non-negative rate over a non-negative time gives a non-positive exponent. */
  lemma NegProductNonPositive(k: real, h: real)
    requires k >= 0.0 && h >= 0.0
    ensures -k * h <= 0.0
  {
  }

  /** Scaling a non-negative amount by a factor in (0, 1] cannot increase it. */
  lemma ScaleByFraction(c: real, e: real)
    requires c >= 0.0 && 0.0 < e <= 1.0
    ensures 0.0 <= c * e <= c
  {
  }

  /** A dose of non-negative amount contributes between 0 and its amount. */
  lemma ContributionBounded(m: Elementary, d: Dose, t: Instant, halfLifeHours: real)
    requires Lawful(m)
    requires halfLifeHours > 0.0 && d.mg >= 0.0
    ensures 0.0 <= Contribution(m, d, t, halfLifeHours) <= d.mg
  {
    if !IsFuture(d, t) {
      DecayBounded(m, d.mg, HoursBetween(d.time, t), halfLifeHours);
    }
  }

  /** A positive dose contributes nothing exactly when it is still in the future. */
  lemma ContributionVanishesIff(m: Elementary, d: Dose, t: Instant, halfLifeHours: real)
    requires Lawful(m)
    requires halfLifeHours != 0.0 && d.mg > 0.0
    ensures Contribution(m, d, t, halfLifeHours) == 0.0 <==> d.time >= t + 60
  {
    FutureIff(d, t);
    if !IsFuture(d, t) {
      var e := m.exp(-DecayRate(m, halfLifeHours) * HoursBetween(d.time, t));
      assert e > 0.0;
      assert d.mg * e > 0.0;
    }
  }

  /** A dose stamped less than a minute after `t` already counts in full: its
      elapsed minutes truncate to 0, which is not negative. */
  lemma SubMinuteFutureDoseCountsFully(m: Elementary, d: Dose, t: Instant, halfLifeHours: real)
    requires Lawful(m)
    requires halfLifeHours != 0.0
    requires t <= d.time < t + 60
    ensures Contribution(m, d, t, halfLifeHours) == d.mg
  {
    HoursZeroWithinAMinute(d.time, t);
    DecayAtStart(m, d.mg, halfLifeHours);
  }

  /** On the 5-hour instance, a dose already taken contributes exactly what
      `caffeine_decay` returns for its amount and elapsed hours, as the
      closure in `total_caffeine` computes it. */
  lemma SourceContributionIsCaffeineDecay(m: Elementary, d: Dose, t: Instant)
    ensures Contribution(m, d, t, SourceHalfLifeHours)
         == if IsFuture(d, t) then 0.0 else CaffeineDecay(m, d.mg, HoursBetween(d.time, t))
  {
  }

  // ----- superposition -----

  /** Nothing taken, nothing in the bloodstream. */
  lemma EmptyScheduleHasNoCaffeine(m: Elementary, t: Instant, halfLifeHours: real)
    requires halfLifeHours != 0.0
    ensures TotalCaffeine(m, [], t, halfLifeHours) == 0.0
  {
  }

  /** Totals add up over concatenated schedules. */
  lemma {:induction false} TotalAdditive(m: Elementary, a: seq<Dose>, b: seq<Dose>, t: Instant, halfLifeHours: real)
    requires halfLifeHours != 0.0
    ensures TotalCaffeine(m, a + b, t, halfLifeHours)
         == TotalCaffeine(m, a, t, halfLifeHours) + TotalCaffeine(m, b, t, halfLifeHours)
  {
    if a == [] {
      assert a + b == b;
    } else {
      assert (a + b)[1..] == a[1..] + b;
      TotalAdditive(m, a[1..], b, t, halfLifeHours);
    }
  }

  /** A single dose totals to its own contribution. */
  lemma TotalOfOne(m: Elementary, d: Dose, t: Instant, halfLifeHours: real)
    requires halfLifeHours != 0.0
    ensures TotalCaffeine(m, [d], t, halfLifeHours) == Contribution(m, d, t, halfLifeHours)
  {
    assert [d][1..] == [];
  }

  /** With non-negative amounts the total is non-negative and at most the sum
      of the amounts. */
  lemma {:induction false} TotalBounded(m: Elementary, doses: seq<Dose>, t: Instant, halfLifeHours: real)
    requires Lawful(m)
    requires halfLifeHours > 0.0 && NonNegative(doses)
    ensures 0.0 <= TotalCaffeine(m, doses, t, halfLifeHours) <= TotalMg(doses)
  {
    if doses != [] {
      ContributionBounded(m, doses[0], t, halfLifeHours);
      TotalBounded(m, doses[1..], t, halfLifeHours);
    }
  }

  /** Only doses already taken matter: dropping the future ones leaves the
      total unchanged. */
  lemma {:induction false} TotalOnlyActive(m: Elementary, doses: seq<Dose>, t: Instant, halfLifeHours: real)
    requires halfLifeHours != 0.0
    ensures TotalCaffeine(m, doses, t, halfLifeHours) == TotalCaffeine(m, ActiveAt(doses, t), t, halfLifeHours)
  {
    if doses != [] {
      TotalOnlyActive(m, doses[1..], t, halfLifeHours);
      if !IsFuture(doses[0], t) {
        TotalAdditive(m, [doses[0]], ActiveAt(doses[1..], t), t, halfLifeHours);
        TotalOfOne(m, doses[0], t, halfLifeHours);
      }
    }
  }

  /** Doses stamped a full minute or more after `t` change nothing. */
  lemma {:induction false} LaterDosesIgnored(m: Elementary, doses: seq<Dose>, later: seq<Dose>, t: Instant, halfLifeHours: real)
    requires halfLifeHours != 0.0
    requires forall i :: 0 <= i < |later| ==> later[i].time >= t + 60
    ensures TotalCaffeine(m, doses + later, t, halfLifeHours) == TotalCaffeine(m, doses, t, halfLifeHours)
  {
    TotalAdditive(m, doses, later, t, halfLifeHours);
    FutureOnlyTotalsZero(m, later, t, halfLifeHours);
  }

  /** A schedule of future doses totals to zero. */
  lemma {:induction false} FutureOnlyTotalsZero(m: Elementary, later: seq<Dose>, t: Instant, halfLifeHours: real)
    requires halfLifeHours != 0.0
    requires forall i :: 0 <= i < |later| ==> later[i].time >= t + 60
    ensures TotalCaffeine(m, later, t, halfLifeHours) == 0.0
  {
    if later != [] {
      FutureIff(later[0], t);
      FutureOnlyTotalsZero(m, later[1..], t, halfLifeHours);
    }
  }

  /** A single dose taken exactly five hours earlier contributes half its
      amount to `total_caffeine`. */
  lemma SingleDoseAfterFiveHours(m: Elementary, d: Dose)
    requires Lawful(m)
    ensures SourceTotalCaffeine(m, [d], d.time + 5 * 3600) == d.mg / 2.0
  {
    var t := d.time + 5 * 3600;
    HoursOfWholeHours(d.time, 5);
    assert HoursBetween(d.time, t) == 5.0;
    TotalOfOne(m, d, t, SourceHalfLifeHours);
    DecayAtHalfLife(m, d.mg, SourceHalfLifeHours);
  }

  // ----- crash prediction -----

  /** Hours until a level of `current` decays to the crash level at the
      5-hour rate. */
  function HoursUntilCrash(m: Elementary, current: real): (h: real)
    requires Lawful(m)
    requires current > CrashLevelMg
    ensures h > 0.0
    ensures DecayAt(m, current, h, SourceHalfLifeHours) == CrashLevelMg
  {
    DecayRatePositive(m, SourceHalfLifeHours);
    var k := DecayRate(m, SourceHalfLifeHours);
    RateReachesCrashLevel(m, current, k);
    m.ln(current / CrashLevelMg) / k
  }

  /** At a positive rate, a level above the crash level decays to exactly the
      crash level after ln(current / 10) / k hours, a positive time. */
  lemma RateReachesCrashLevel(m: Elementary, current: real, k: real)
    requires Lawful(m)
    requires current > CrashLevelMg && k > 0.0
    ensures m.ln(current / CrashLevelMg) / k > 0.0
    ensures DecayWithRate(m, current, k, m.ln(current / CrashLevelMg) / k) == CrashLevelMg
  {
    LnOfRatioAboveCrash(m, current);
    var l := m.ln(current / CrashLevelMg);
    QuotientPositive(l, k);
    RateTimesQuotient(k, l);
    ScaleAtCrashTime(m, current, k, l / k, l);
  }

  /** For a level above the crash level, ln(current / 10) is positive and exp
      of its negation is 10 / current. */
  lemma LnOfRatioAboveCrash(m: Elementary, current: real)
    requires Lawful(m)
    requires current > CrashLevelMg
    ensures m.ln(current / CrashLevelMg) > 0.0
    ensures m.exp(-m.ln(current / CrashLevelMg)) * (current / CrashLevelMg) == 1.0
  {
    var y := current / CrashLevelMg;
    assert y > 1.0;
  }

  /** If exp(-l) is 10 / current and `h` hours at rate `k` make an exponent
      of -l, then after `h` hours the level `current` has decayed to 10. */
  lemma ScaleAtCrashTime(m: Elementary, current: real, k: real, h: real, l: real)
    requires current > 0.0
    requires -k * h == -l
    requires m.exp(-l) * (current / CrashLevelMg) == 1.0
    ensures DecayWithRate(m, current, k, h) == CrashLevelMg
  {
    ReciprocalScale(current, m.exp(-l));
  }

  /** A positive quantity over a positive rate is positive. */
  lemma QuotientPositive(l: real, k: real)
    requires l > 0.0 && k > 0.0
    ensures l / k > 0.0
  {
  }

  /** Multiplying the rate by a time computed as a quotient by that rate
      gives back the numerator. */
  lemma RateTimesQuotient(k: real, l: real)
    requires k != 0.0
    ensures -k * (l / k) == -l
  {
  }

  /** If `e` is the reciprocal of `c / 10`, then `c * e` is 10. */
  lemma ReciprocalScale(c: real, e: real)
    requires c > 0.0
    requires e * (c / CrashLevelMg) == 1.0
    ensures c * e == CrashLevelMg
  {
    assert c * e == CrashLevelMg * (e * (c / CrashLevelMg));
  }

  /** `predicted_crash`: `now` when the current level is already at or below
      the crash level, otherwise `now` plus the crash delay rounded to whole
      seconds. */
  function PredictedCrash(m: Elementary, doses: seq<Dose>, now: Instant): (r: Instant)
    requires Lawful(m)
    ensures SourceTotalCaffeine(m, doses, now) <= CrashLevelMg ==> r == now
    ensures r >= now
    ensures SourceTotalCaffeine(m, doses, now) > CrashLevelMg ==>
      -0.5 <= (r - now) as real - HoursUntilCrash(m, SourceTotalCaffeine(m, doses, now)) * 3600.0 <= 0.5
  {
    var current := SourceTotalCaffeine(m, doses, now);
    if current <= CrashLevelMg then now
    else
      var hours := HoursUntilCrash(m, current);
      RoundNonNegative(m, hours * 3600.0);
      var secs := m.round(hours * 3600.0);
      now + secs
  }
}

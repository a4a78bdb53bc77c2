/**
 The sleep-quality predictor: 100 times exp(-c / sleepDecayMg) for the
 caffeine level c at bedtime, clamped to [0, 100].

 The source computes c with `total_caffeine(doses, sleep_time, sensitivity)`,
 a three-argument call to a function that is declared with two arguments and
 a fixed 5-hour half-life. The model resolves this as the call site intends:
 the total is taken with the sensitivity's own half-life.
 */
module Sleep {
  import opened RealMath
  import opened Time
  import opened DoseModel
  import opened Sensitivity
  import opened Caffeine

  /** The score for a caffeine level of `caffeineMg` at bedtime. */
  function ScoreForLevel(m: Elementary, caffeineMg: real, sleepDecayMg: real): (r: real)
    requires sleepDecayMg != 0.0
    ensures 0.0 <= r <= 100.0
  {
    Clamp(m.exp(-caffeineMg / sleepDecayMg) * 100.0, 0.0, 100.0)
  }

  /** `predicted_sleep_score`. */
  function PredictedSleepScore(m: Elementary, doses: seq<Dose>, sleepTime: Instant, s: UserSensitivity): (r: real)
    requires s.halfLifeHours != 0.0 && s.sleepDecayMg != 0.0
    ensures 0.0 <= r <= 100.0
  {
    var caffeine := TotalCaffeine(m, doses, sleepTime, s.halfLifeHours);
    ScoreForLevel(m, caffeine, s.sleepDecayMg)
  }

  /** No caffeine at bedtime gives the full score. */
  lemma NoCaffeineFullScore(m: Elementary, sleepDecayMg: real)
    requires Lawful(m)
    requires sleepDecayMg != 0.0
    ensures ScoreForLevel(m, 0.0, sleepDecayMg) == 100.0
  {
    assert -0.0 / sleepDecayMg == 0.0;
  }

  /** The score never rises with the caffeine level. */
  lemma ScoreNonIncreasing(m: Elementary, c1: real, c2: real, sleepDecayMg: real)
    requires Lawful(m)
    requires sleepDecayMg > 0.0
    requires c1 <= c2
    ensures ScoreForLevel(m, c2, sleepDecayMg) <= ScoreForLevel(m, c1, sleepDecayMg)
  {
    assert -c2 / sleepDecayMg <= -c1 / sleepDecayMg;
    ExpMonotone(m, -c2 / sleepDecayMg, -c1 / sleepDecayMg);
    ClampMonotone(m.exp(-c2 / sleepDecayMg) * 100.0, m.exp(-c1 / sleepDecayMg) * 100.0, 0.0, 100.0);
  }

  /** An empty schedule sleeps perfectly. */
  lemma EmptyScheduleFullScore(m: Elementary, sleepTime: Instant, s: UserSensitivity)
    requires Lawful(m)
    requires s.halfLifeHours != 0.0 && s.sleepDecayMg != 0.0
    ensures PredictedSleepScore(m, [], sleepTime, s) == 100.0
  {
    NoCaffeineFullScore(m, s.sleepDecayMg);
  }

  /** Doses stamped a full minute or more after bedtime do not change the score. */
  lemma LaterDosesKeepScore(m: Elementary, doses: seq<Dose>, later: seq<Dose>, sleepTime: Instant, s: UserSensitivity)
    requires s.halfLifeHours != 0.0 && s.sleepDecayMg != 0.0
    requires forall i :: 0 <= i < |later| ==> later[i].time >= sleepTime + 60
    ensures PredictedSleepScore(m, doses + later, sleepTime, s) == PredictedSleepScore(m, doses, sleepTime, s)
  {
    LaterDosesIgnored(m, doses, later, sleepTime, s.halfLifeHours);
  }

  /** Only the doses taken by bedtime decide the score. */
  lemma ScoreDependsOnlyOnTakenDoses(m: Elementary, doses: seq<Dose>, sleepTime: Instant, s: UserSensitivity)
    requires s.halfLifeHours != 0.0 && s.sleepDecayMg != 0.0
    ensures PredictedSleepScore(m, doses, sleepTime, s) == PredictedSleepScore(m, ActiveAt(doses, sleepTime), sleepTime, s)
  {
    TotalOnlyActive(m, doses, sleepTime, s.halfLifeHours);
  }

  /** With a well-formed sensitivity, one more dose of a non-negative amount
      never improves the score. */
  lemma ExtraDoseNeverHelps(m: Elementary, doses: seq<Dose>, d: Dose, sleepTime: Instant, s: UserSensitivity)
    requires Lawful(m)
    requires WellFormed(s)
    requires d.mg >= 0.0
    ensures PredictedSleepScore(m, doses + [d], sleepTime, s) <= PredictedSleepScore(m, doses, sleepTime, s)
  {
    TotalAdditive(m, doses, [d], sleepTime, s.halfLifeHours);
    TotalOfOne(m, d, sleepTime, s.halfLifeHours);
    ContributionBounded(m, d, sleepTime, s.halfLifeHours);
    ScoreNonIncreasing(m, TotalCaffeine(m, doses, sleepTime, s.halfLifeHours),
      TotalCaffeine(m, doses + [d], sleepTime, s.halfLifeHours), s.sleepDecayMg);
  }
}

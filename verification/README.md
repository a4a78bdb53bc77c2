# Caffeine timeline core, in Dafny

A model of the computational core of a caffeine-tracking backend. It covers four
pure pieces:

- **Sensitivity derivation** (`Sensitivity`). A user profile (age, weight, sex,
  activity level, smoking) becomes a `UserSensitivity`. Fixed baselines (5 h
  half-life, 50 mg sleep decay, 10 mg crash threshold) are scaled by
  branch-selected multipliers. The half-life is then clamped to [3, 8] and the
  sleep decay to [30, 90].
- **Decay model** (`Caffeine`). Each dose decays as `mg * exp(-ln 2 / halfLife * hours)`.
  The elapsed hours are whole minutes, truncated toward zero, divided by 60.
  A dose whose elapsed minutes are negative contributes 0. The total at a time
  is the sum over all doses. The crash predictor returns `now` when the
  5-hour-half-life total is at most 10 mg. Otherwise it returns `now` plus the
  time for that level to decay to 10 mg, rounded to whole seconds.
- **Sleep score** (`Sleep`). The score is `100 * exp(-c / sleepDecayMg)`,
  clamped to [0, 100], where `c` is the total at bedtime.
- **Schedule validator** (`ScheduleConstraints`). A schedule passes when three
  rules hold. The total amount is within the daily cap. Every dose is at least
  the minimum gap after the one listed before it, in the order given. No dose
  is after the cutoff.

Supporting modules: `RealMath` holds the library functions, `Time` holds
instants and the minute truncation, `DoseModel` holds doses and their total,
and `Profile` holds the user profile.

`exp`, `ln`, `powf` and `round` cannot be computed over `real`. They travel as
the fields of an `Elementary` value. Every property that depends on them
requires `Lawful(m)`. This predicate lists the facts the proofs use:
- `exp(0) = 1`;
- `exp` is positive and strictly increasing;
- `exp(-ln y) * y = 1` for `y > 0`, which gives `exp(-ln 2) = 1/2`;
- `ln x > 0` for `x > 1`;
- `powf(b, e) > 0` for `b > 0`, and `powf(1, e) = 1`;
- `round(x)` is within 1/2 of `x`.

`PredictedCrash` itself requires `Lawful(m)`. Through `HoursUntilCrash` it divides by the rate `k = ln 2 / 5`, and `Lawful` makes `k` positive, so the division is defined and `HoursUntilCrash`'s ensures hold.

Timestamps are whole seconds (`Time.Instant = int`). chrono's `num_minutes` is
`Time.WholeMinutes`, which truncates toward zero.

Notes on the source as written:
- `src/math/sleep.rs:8` calls `total_caffeine` with three arguments.
  `src/math/caffeine.rs:11` declares it with two, and uses a fixed 5-hour
  half-life (`:6`, `:34`). The model's `TotalCaffeine` takes the half-life as a
  parameter. The `caffeine.rs` functions use `SourceHalfLifeHours` (5.0). The
  sleep score uses the sensitivity's `halfLifeHours`, as its call site asks.
- `predicted_crash` ignores any sensitivity. It uses its own 10 mg level and
  5-hour half-life, and the model does the same.
- `valid_schedule` does not sort the schedule before the gap check. Each dose
  is compared with the one listed just before it, so the verdict depends on
  the listing order. `GapRuleDependsOnListingOrder` shows the same two doses
  passing in one order and failing in the other.
- Above 10 mg, `predicted_crash` rounds the delay to whole seconds, and a delay
  under half a second rounds to 0. So the crash instant can equal `now` even
  when the level is above the threshold. The model proves `r >= now`, and
  that `r - now` is within half a second of the exact delay.

## Model

| member | source | states |
|---|---|---|
| RealMath.Clamp | src/model/sensitivity.rs:60-61 | the result lies in [lo, hi]; it is `x` inside the range, `lo` below it, `hi` above it |
| RealMath.Max | src/model/sensitivity.rs:33 | the result is one of the two arguments and at least both |
| RealMath.RoundNonNegative | src/math/caffeine.rs:36 | rounding a non-negative delay gives a non-negative whole number of seconds |
| Time.WholeMinutes | src/math/caffeine.rs:17 | `num_minutes` truncates toward zero: for `s >= 0`, `60r <= s < 60r + 60`; for `s < 0`, `60r - 60 < s <= 60r <= 0` |
| Time.HoursBetween | src/math/caffeine.rs:17 | has no contract of its own; `Time.HoursNegativeIff`, `Time.HoursZeroWithinAMinute` and `Time.HoursOfWholeHours` state its sign, its value within a minute, and its value on whole hours |
| Time.HoursNegativeIff | src/math/caffeine.rs:17-18 | the elapsed hours are negative exactly when the later instant is a full minute or more earlier |
| Time.HoursZeroWithinAMinute | src/math/caffeine.rs:17 | two instants less than a minute apart, in either order, are 0 hours apart |
| Time.HoursOfWholeHours | src/math/caffeine.rs:17 | an exact number of hours is converted exactly |
| DoseModel.TotalMg | src/math/constraints.rs:9 | has no contract of its own; `DoseModel.TotalMgAppend` and `DoseModel.TotalMgNonNegative` state that it adds over concatenation and is non-negative for non-negative amounts |
| DoseModel.TotalMgAppend | src/math/constraints.rs:9 | the total amount of a concatenation is the sum of the totals |
| DoseModel.TotalMgNonNegative | src/math/constraints.rs:9 | non-negative amounts give a non-negative total |
| Sensitivity.Default | src/model/sensitivity.rs:11-18 | the default sensitivity lies in the clamped ranges and is well formed |
| Sensitivity.FromProfile | src/model/sensitivity.rs:22-64 | for every profile, the half-life is in [3, 8], the sleep decay is in [30, 90], and the crash threshold is 10 |
| Sensitivity.DefaultIsNeutralProfile | src/model/sensitivity.rs:11-64 | deriving from a 70 kg, 25-year-old, male, moderate, non-smoking profile gives exactly the default (5, 50, 10) |
| Sensitivity.YoungAgeIrrelevant | src/model/sensitivity.rs:31-34 | at age 25 or below, age has no effect on the result |
| Sensitivity.SleepDecayIgnoresAgeUpToThirty | src/model/sensitivity.rs:31-34 | at ages up to 30, age has no effect on the sleep decay |
| Sensitivity.SleepDecayDependsOnAgeAndActivity | src/model/sensitivity.rs:27-57 | two profiles with the same age and activity level have the same sleep decay, whatever their weight, sex and smoking |
| Sensitivity.ActivityHalfLifeFactor | src/model/sensitivity.rs:42-46 | has no contract of its own; `Sensitivity.ActivityOrdersHalfLife` states that its multipliers order the half-life Athletic <= Moderate <= Sedentary |
| Sensitivity.ActivitySleepDecayFactor | src/model/sensitivity.rs:48-52 | has no contract of its own; `Sensitivity.ActivityOrdersSleepDecay` states that its multipliers order the sleep decay Sedentary <= Moderate <= Athletic |
| Sensitivity.PersonalHalfLife | src/model/sensitivity.rs:27-39 | has no contract of its own; `Sensitivity.PersonalHalfLifePositive` states it is positive for a positive weight, and `Sensitivity.RawHalfLifeFactors` states that activity and smoking do not affect it |
| Sensitivity.RawHalfLife | src/model/sensitivity.rs:23-56 | has no contract of its own; `Sensitivity.RawHalfLifeFactors` factors it into the personal half-life, the activity multiplier and the smoking multiplier |
| Sensitivity.RawSleepDecay | src/model/sensitivity.rs:24-52 | has no contract of its own; `Sensitivity.SleepDecayIgnoresAgeUpToThirty`, `Sensitivity.SleepDecayDependsOnAgeAndActivity` and `Sensitivity.ActivityOrdersSleepDecay` state what it depends on and how |
| Sensitivity.RawHalfLifeFactors | src/model/sensitivity.rs:28-56 | the pre-clamp half-life is the personal half-life times the activity multiplier, times 0.7 for a smoker; the personal half-life does not depend on activity or smoking |
| Sensitivity.CrashThresholdFixed | src/model/sensitivity.rs:22-63 | every profile gets the same crash threshold as the default |
| Sensitivity.PersonalHalfLifePositive | src/model/sensitivity.rs:27-39 | with a positive weight, the half-life after the weight, age and sex adjustments is positive |
| Sensitivity.SmokingNeverLengthensHalfLife | src/model/sensitivity.rs:55-60 | with all else equal and a positive weight, a smoker's half-life is at most a non-smoker's |
| Sensitivity.ActivityOrdersHalfLife | src/model/sensitivity.rs:42-60 | with all else equal and a positive weight, half-life is ordered Athletic <= Moderate <= Sedentary |
| Sensitivity.ActivityOrdersSleepDecay | src/model/sensitivity.rs:48-61 | with all else equal, sleep decay is ordered Sedentary <= Moderate <= Athletic |
| Caffeine.IsFuture | src/math/caffeine.rs:17-18 | has no contract of its own; `Caffeine.FutureIff` states that it holds exactly when the dose is stamped at least 60 s after `t` |
| Caffeine.ActiveAt | src/math/caffeine.rs:16-19 | keeps exactly the doses that are not in the future at `t`, each as many times as it occurs in the input, and nothing else |
| Caffeine.FutureIff | src/math/caffeine.rs:17-18 | a dose counts as future exactly when it is stamped at least 60 s after `t` |
| Caffeine.DecayRate | src/math/caffeine.rs:6 | has no contract of its own; `Caffeine.DecayRatePositive` states that it is positive for a positive half-life |
| Caffeine.DecayWithRate | src/math/caffeine.rs:7 | has no contract of its own; `Caffeine.RateDecayBounded`, `Caffeine.RateDecayStrictlyDecreasing` and `Caffeine.RateReachesCrashLevel` state its bounds, its strict decrease and when it reaches 10 mg |
| Caffeine.DecayAt | src/math/caffeine.rs:5-7 | has no contract of its own; `Caffeine.DecayAtStart`, `Caffeine.DecayAtHalfLife`, `Caffeine.DecayBounded` and `Caffeine.DecayStrictlyDecreasing` state its value at 0 and at one half-life, its bounds and its strict decrease |
| Caffeine.CaffeineDecay | src/math/caffeine.rs:5-7 | has no contract of its own; `Caffeine.CaffeineDecayHalvesInFiveHours` states its value at 0 and 5 hours, and `Caffeine.SourceContributionIsCaffeineDecay` states that `total_caffeine` goes through it |
| Caffeine.Contribution | src/math/caffeine.rs:14-22 | has no contract of its own; `Caffeine.ContributionBounded`, `Caffeine.ContributionVanishesIff` and `Caffeine.SubMinuteFutureDoseCountsFully` state its bounds, when it is 0, and the sub-minute case |
| Caffeine.DecayAtStart | src/math/caffeine.rs:5-7 | at 0 elapsed hours the full amount remains |
| Caffeine.DecayAtHalfLife | src/math/caffeine.rs:5-7 | after one half-life, half the amount remains |
| Caffeine.CaffeineDecayHalvesInFiveHours | src/math/caffeine.rs:5-7 | `caffeine_decay` returns its full input at 0 hours and half of it at 5 hours |
| Caffeine.DecayStrictlyDecreasing | src/math/caffeine.rs:5-7 | with a positive amount and half-life, what remains strictly decreases as time passes |
| Caffeine.DecayBounded | src/math/caffeine.rs:5-7 | with a non-negative amount and elapsed time, what remains is between 0 and the amount |
| Caffeine.RateDecayBounded | src/math/caffeine.rs:7 | at a non-negative rate, a non-negative amount decays to a value between 0 and the amount |
| Caffeine.RateDecayStrictlyDecreasing | src/math/caffeine.rs:7 | at a positive rate, a positive amount strictly decreases as time passes |
| Caffeine.DecayRatePositive | src/math/caffeine.rs:6 | `ln 2 / halfLife` is positive for a positive half-life |
| Caffeine.ContributionBounded | src/math/caffeine.rs:14-22 | a dose of non-negative amount contributes between 0 and its amount |
| Caffeine.ContributionVanishesIff | src/math/caffeine.rs:17-21 | a positive dose contributes 0 exactly when it is stamped at least a minute after `t` |
| Caffeine.SubMinuteFutureDoseCountsFully | src/math/caffeine.rs:17-21 | a dose stamped less than a minute after `t` contributes its full amount, because its minutes truncate to 0 |
| Caffeine.SourceContributionIsCaffeineDecay | src/math/caffeine.rs:14-22 | at the 5-hour half-life, a dose contributes 0 when it is in the future, and otherwise exactly `caffeine_decay` of its amount over its elapsed hours |
| Caffeine.TotalCaffeine | src/math/caffeine.rs:11-24 | has no contract of its own; `Caffeine.EmptyScheduleHasNoCaffeine`, `Caffeine.TotalOfOne`, `Caffeine.TotalAdditive`, `Caffeine.TotalBounded` and `Caffeine.TotalOnlyActive` state its value on empty and one-dose lists, its additivity, its bounds and that only doses already taken count |
| Caffeine.SourceTotalCaffeine | src/math/caffeine.rs:11-24 | has no contract of its own; it is `Caffeine.TotalCaffeine` at the 5-hour half-life, and `Caffeine.SingleDoseAfterFiveHours` and `Caffeine.PredictedCrash` state properties of it |
| Caffeine.EmptyScheduleHasNoCaffeine | src/math/caffeine.rs:11-24 | an empty dose list gives a total of 0 at every time |
| Caffeine.TotalAdditive | src/math/caffeine.rs:12-24 | the total for `a + b` is the total for `a` plus the total for `b` |
| Caffeine.TotalOfOne | src/math/caffeine.rs:12-24 | a one-dose list totals to that dose's contribution |
| Caffeine.TotalBounded | src/math/caffeine.rs:11-24 | with non-negative amounts, the total is non-negative and at most the sum of the amounts |
| Caffeine.TotalOnlyActive | src/math/caffeine.rs:11-24 | dropping the doses that are future at `t` leaves the total unchanged |
| Caffeine.FutureOnlyTotalsZero | src/math/caffeine.rs:14-24 | a list of doses, each at least a minute after `t`, totals to 0 |
| Caffeine.LaterDosesIgnored | src/math/caffeine.rs:11-24 | appending doses stamped at least a minute after `t` leaves the total unchanged |
| Caffeine.SingleDoseAfterFiveHours | src/math/caffeine.rs:5-24 | one dose, evaluated exactly 5 h later, gives a total of half its amount |
| Caffeine.HoursUntilCrash | src/math/caffeine.rs:34-35 | the crash delay is positive, and decaying the current level for that long at the 5-hour rate gives exactly 10 mg |
| Caffeine.RateReachesCrashLevel | src/math/caffeine.rs:34-35 | at a positive rate, a level above 10 mg decays to exactly 10 mg after ln(level / 10) / rate hours, and that time is positive |
| Caffeine.PredictedCrash | src/math/caffeine.rs:28-38 | gives `now` when the level is at most 10 mg; is never before `now`; above 10 mg it is within half a second of `now` plus the exact crash delay |
| Sleep.ScoreForLevel | src/math/sleep.rs:10-11 | the score for any caffeine level lies in [0, 100] |
| Sleep.PredictedSleepScore | src/math/sleep.rs:7-12 | the predicted score lies in [0, 100] for any doses and sensitivity |
| Sleep.NoCaffeineFullScore | src/math/sleep.rs:10-11 | zero caffeine gives a score of exactly 100 |
| Sleep.ScoreNonIncreasing | src/math/sleep.rs:10-11 | with a positive sleep decay, more caffeine never gives a higher score |
| Sleep.EmptyScheduleFullScore | src/math/sleep.rs:7-12 | an empty dose list gives a score of exactly 100 |
| Sleep.LaterDosesKeepScore | src/math/sleep.rs:8 | doses stamped at least a minute after bedtime do not change the score |
| Sleep.ScoreDependsOnlyOnTakenDoses | src/math/sleep.rs:8 | the score equals the score of just the doses taken by bedtime |
| Sleep.ExtraDoseNeverHelps | src/math/sleep.rs:7-12 | with a well-formed sensitivity, adding a dose of non-negative amount never raises the score |
| ScheduleConstraints.AdjacentGapsHold | src/math/constraints.rs:15-20 | true exactly when each dose, in the order given, is at least the minimum gap after the one before it |
| ScheduleConstraints.NoneAfter | src/math/constraints.rs:23-27 | true exactly when no dose is after the cutoff |
| ScheduleConstraints.ValidSchedule | src/math/constraints.rs:7-29 | true exactly when the total is within the cap, every adjacent gap in the given order is at least the minimum, and no dose is after the cutoff; a failure of any one rule rejects, whatever the order of the checks |
| ScheduleConstraints.ShortSchedulesPassGapRule | src/math/constraints.rs:15 | schedules of 0 or 1 doses never fail the gap rule |
| ScheduleConstraints.EmptyScheduleValidIff | src/math/constraints.rs:7-28 | the empty schedule is valid exactly when the daily cap is at least 0 |
| ScheduleConstraints.PositiveGapForcesTimeOrder | src/math/constraints.rs:15-20 | with a positive minimum gap, a valid schedule is in increasing time order, each dose at least a minute after every earlier one |
| ScheduleConstraints.StepsAccumulate | src/math/constraints.rs:15-20 | under a positive gap, any later-listed dose is at least a minute after any earlier-listed one |
| ScheduleConstraints.GapRuleDependsOnListingOrder | src/math/constraints.rs:15-20 | the same two doses, 2 h apart with a 1 h gap rule, pass in time order and fail in reverse order |

## Left out

- The schedule optimizer. No implementation of it exists in the source. `src/math/optimizer.rs` only repeats the sensitivity struct, and the `crash` module named in `src/math/mod.rs:2` is not part of this model.
- `src/main.rs`, the HTTP server and its routing. The `timeline` handler returns placeholder values and has no logic.
- IEEE floating point: NaN, infinities and rounding error. `exp`, `ln`, `powf` and `round` are abstract functions limited by `Lawful`. No closed-form numeric totals are stated, because they would need actual values of `exp`.
- Sensitivity.FromProfile: its bounds are proved for every real the abstract `powf` returns. In `f64`, a negative weight makes `powf` return NaN. `clamp` then passes the NaN through, so the bound does not hold there.
- Caffeine.PredictedCrash: the saturating `as i64` cast and chrono's overflow panic on `now + Duration` are not modelled. The rounded delay is an unbounded integer.
- Sub-second parts of timestamps. Instants are whole seconds.
- The unused `height_cm` profile field; the serde and `Debug`/`Clone` derives.
- Caller errors: a zero half-life or zero sleep decay would divide by zero, so those members require them to be non-zero.

/**
 Per-user sensitivity: the half-life that governs decay, the caffeine level
 at which sleep quality has dropped by a factor e, and the crash threshold.
 `FromProfile` derives it from a `UserProfile` by scaling fixed baselines with
 multipliers chosen by age, sex, activity level and smoking, then clamping.
 */
module Sensitivity {
  import opened RealMath
  import opened Profile

  datatype UserSensitivity = UserSensitivity(
    halfLifeHours: real,
    sleepDecayMg: real,
    crashThreshold: real)

  const BaselineHalfLifeHours: real := 5.0
  const BaselineSleepDecayMg: real := 50.0
  const CrashThresholdMg: real := 10.0

  /** The range every derived sensitivity lies in: both scaled values clamped,
      the threshold untouched. */
  predicate Clamped(s: UserSensitivity) {
    && 3.0 <= s.halfLifeHours <= 8.0
    && 30.0 <= s.sleepDecayMg <= 90.0
    && s.crashThreshold == CrashThresholdMg
  }

  /** Both quantities the decay and sleep models divide by are positive. */
  predicate WellFormed(s: UserSensitivity) {
    s.halfLifeHours > 0.0 && s.sleepDecayMg > 0.0
  }

  /** `UserSensitivity::default()`: the baselines with no personalisation. */
  function Default(): (s: UserSensitivity)
    ensures Clamped(s) && WellFormed(s)
  {
    UserSensitivity(BaselineHalfLifeHours, BaselineSleepDecayMg, CrashThresholdMg)
  }

  /** Half-life multiplier for the activity level. */
  function ActivityHalfLifeFactor(a: ActivityLevel): real {
    match a
    case Sedentary => 1.05
    case Moderate => 1.0
    case Athletic => 0.9
  }

  /** Sleep-decay multiplier for the activity level. */
  function ActivitySleepDecayFactor(a: ActivityLevel): real {
    match a
    case Sedentary => 0.9
    case Moderate => 1.0
    case Athletic => 1.1
  }

  /** The half-life after the weight, age and sex adjustments, in the order
      the source applies them. */
  function PersonalHalfLife(m: Elementary, p: UserProfile): real {
    var byWeight := BaselineHalfLifeHours * m.powf(p.weightKg / 70.0, 0.25);
    var byAge := if p.age > 25 then byWeight * (1.0 + (p.age as real - 25.0) * 0.005) else byWeight;
    if p.sex == Female then byAge * 1.1 else byAge
  }

  /** The half-life after all multiplicative adjustments, before the clamp:
      the personal half-life, then activity, then smoking. */
  function RawHalfLife(m: Elementary, p: UserProfile): real {
    var byActivity := PersonalHalfLife(m, p) * ActivityHalfLifeFactor(p.activityLevel);
    if p.smoker then byActivity * 0.7 else byActivity
  }

  /** The sleep-decay amount after its adjustments, before the clamp. Ages 26
      to 30 pass the age gate but lose nothing, since `max(age - 30, 0)` is 0. */
  function RawSleepDecay(p: UserProfile): real {
    var byAge :=
      if p.age > 25 then BaselineSleepDecayMg * (1.0 - Max(p.age as real - 30.0, 0.0) * 0.003)
      else BaselineSleepDecayMg;
    byAge * ActivitySleepDecayFactor(p.activityLevel)
  }

  /** `UserSensitivity::from_profile`. */
  function FromProfile(m: Elementary, p: UserProfile): (s: UserSensitivity)
    ensures Clamped(s) && WellFormed(s)
  {
    UserSensitivity(
      Clamp(RawHalfLife(m, p), 3.0, 8.0),
      Clamp(RawSleepDecay(p), 30.0, 90.0),
      CrashThresholdMg)
  }

  /** The profile that no adjustment touches: 70 kg, at most 25 years, male,
      moderately active, non-smoking. */
  const NeutralProfile: UserProfile := UserProfile(25, 70.0, Male, Moderate, false)

  /** Deriving from the neutral profile reproduces the default sensitivity. */
  lemma DefaultIsNeutralProfile(m: Elementary)
    requires Lawful(m)
    ensures FromProfile(m, NeutralProfile) == Default()
  {
    assert m.powf(1.0, 0.25) == 1.0;
    assert NeutralProfile.weightKg / 70.0 == 1.0;
  }

  /** Up to 25 years, age changes nothing. */
  lemma YoungAgeIrrelevant(m: Elementary, p: UserProfile)
    requires p.age <= 25
    ensures FromProfile(m, p) == FromProfile(m, p.(age := 0))
  {
    var q := p.(age := 0);
    assert PersonalHalfLife(m, p) == PersonalHalfLife(m, q);
    assert RawHalfLife(m, p) == RawHalfLife(m, q);
    assert RawSleepDecay(p) == RawSleepDecay(q);
  }

  /** Up to 30 years, age leaves the sleep-decay amount unchanged. */
  lemma SleepDecayIgnoresAgeUpToThirty(m: Elementary, p: UserProfile)
    requires p.age <= 30
    ensures FromProfile(m, p).sleepDecayMg == FromProfile(m, p.(age := 0)).sleepDecayMg
  {
  }

  /** The sleep-decay amount depends on age and activity level only:
      weight, sex and smoking leave it unchanged. */
  lemma SleepDecayDependsOnAgeAndActivity(m: Elementary, p: UserProfile, q: UserProfile)
    requires p.age == q.age && p.activityLevel == q.activityLevel
    ensures FromProfile(m, p).sleepDecayMg == FromProfile(m, q).sleepDecayMg
  {
  }

  /** The crash threshold is the same for every profile. */
  lemma CrashThresholdFixed(m: Elementary, p: UserProfile, q: UserProfile)
    ensures FromProfile(m, p).crashThreshold == FromProfile(m, q).crashThreshold == Default().crashThreshold
  {
  }

  /** With a positive weight, the weight, age and sex adjustments keep the
      half-life positive. */
  lemma PersonalHalfLifePositive(m: Elementary, p: UserProfile)
    requires Lawful(m)
    requires p.weightKg > 0.0
    ensures PersonalHalfLife(m, p) > 0.0
  {
    var w := m.powf(p.weightKg / 70.0, 0.25);
    assert w > 0.0;
    var byWeight := BaselineHalfLifeHours * w;
    assert byWeight > 0.0;
    var ageFactor := if p.age > 25 then 1.0 + (p.age as real - 25.0) * 0.005 else 1.0;
    assert ageFactor >= 1.0;
    var byAge := byWeight * ageFactor;
    assert byAge > 0.0;
  }

  /** The raw half-life is the personal half-life times the activity and
      smoking multipliers; the personal part ignores activity and smoking. */
  lemma RawHalfLifeFactors(m: Elementary, p: UserProfile)
    ensures RawHalfLife(m, p)
         == PersonalHalfLife(m, p) * ActivityHalfLifeFactor(p.activityLevel) * (if p.smoker then 0.7 else 1.0)
    ensures forall a: ActivityLevel, s: bool ::
      PersonalHalfLife(m, p.(activityLevel := a, smoker := s)) == PersonalHalfLife(m, p)
  {
  }

  /** Scaling a positive value by factors that are ordered keeps the order. */
  lemma ScaleOrdered(base: real, f: real, g: real)
    requires base > 0.0 && f <= g
    ensures base * f <= base * g
  {
  }

  /** With all else equal and a positive weight, a smoker's half-life is at
      most a non-smoker's. */
  lemma SmokingNeverLengthensHalfLife(m: Elementary, p: UserProfile)
    requires Lawful(m)
    requires p.weightKg > 0.0
    ensures FromProfile(m, p.(smoker := true)).halfLifeHours <= FromProfile(m, p.(smoker := false)).halfLifeHours
  {
    PersonalHalfLifePositive(m, p);
    RawHalfLifeFactors(m, p.(smoker := true));
    RawHalfLifeFactors(m, p.(smoker := false));
    var base := PersonalHalfLife(m, p) * ActivityHalfLifeFactor(p.activityLevel);
    ScaleOrdered(PersonalHalfLife(m, p), 0.0, ActivityHalfLifeFactor(p.activityLevel));
    ScaleOrdered(base, 0.7, 1.0);
    ClampMonotone(RawHalfLife(m, p.(smoker := true)), RawHalfLife(m, p.(smoker := false)), 3.0, 8.0);
  }

  /** With all else equal and a positive weight, the half-life is ordered
      Athletic <= Moderate <= Sedentary. */
  lemma ActivityOrdersHalfLife(m: Elementary, p: UserProfile)
    requires Lawful(m)
    requires p.weightKg > 0.0
    ensures FromProfile(m, p.(activityLevel := Athletic)).halfLifeHours
         <= FromProfile(m, p.(activityLevel := Moderate)).halfLifeHours
         <= FromProfile(m, p.(activityLevel := Sedentary)).halfLifeHours
  {
    PersonalHalfLifePositive(m, p);
    var s := if p.smoker then 0.7 else 1.0;
    var base := PersonalHalfLife(m, p) * s;
    ScaleOrdered(PersonalHalfLife(m, p), 0.0, s);
    var pa := p.(activityLevel := Athletic);
    var pm := p.(activityLevel := Moderate);
    var ps := p.(activityLevel := Sedentary);
    RawHalfLifeFactors(m, p);
    RawHalfLifeFactors(m, pa);
    RawHalfLifeFactors(m, pm);
    RawHalfLifeFactors(m, ps);
    assert PersonalHalfLife(m, pa) == PersonalHalfLife(m, pm) == PersonalHalfLife(m, ps) == PersonalHalfLife(m, p);
    assert RawHalfLife(m, pa) == base * 0.9;
    assert RawHalfLife(m, pm) == base * 1.0;
    assert RawHalfLife(m, ps) == base * 1.05;
    ScaleOrdered(base, 0.9, 1.0);
    ScaleOrdered(base, 1.0, 1.05);
    ClampMonotone(RawHalfLife(m, pa), RawHalfLife(m, pm), 3.0, 8.0);
    ClampMonotone(RawHalfLife(m, pm), RawHalfLife(m, ps), 3.0, 8.0);
  }

  /** With all else equal, the sleep-decay amount is ordered
      Sedentary <= Moderate <= Athletic. */
  lemma ActivityOrdersSleepDecay(m: Elementary, p: UserProfile)
    ensures FromProfile(m, p.(activityLevel := Sedentary)).sleepDecayMg
         <= FromProfile(m, p.(activityLevel := Moderate)).sleepDecayMg
         <= FromProfile(m, p.(activityLevel := Athletic)).sleepDecayMg
  {
    var base := RawSleepDecay(p.(activityLevel := Moderate));
    assert Max(p.age as real - 30.0, 0.0) <= 225.0;
    assert base > 0.0;
    var a := RawSleepDecay(p.(activityLevel := Sedentary));
    var b := RawSleepDecay(p.(activityLevel := Athletic));
    assert a == base * 0.9 && b == base * 1.1;
    ClampMonotone(a, base, 30.0, 90.0);
    ClampMonotone(base, b, 30.0, 90.0);
  }
}

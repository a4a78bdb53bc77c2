/**
 The user's physical attributes, from which a sensitivity is derived.
 */
module Profile {

  datatype Sex = Male | Female | Other

  datatype ActivityLevel = Sedentary | Moderate | Athletic

  /** A `u8` number of years. */
  type Age = a: int | 0 <= a < 256

  /** `UserProfile`, without the height, which nothing reads. */
  datatype UserProfile = UserProfile(
    age: Age,
    weightKg: real,
    sex: Sex,
    activityLevel: ActivityLevel,
    smoker: bool)
}

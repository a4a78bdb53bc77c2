/**
 Instants on the UTC time axis and the one duration conversion the source
 uses: chrono's `Duration::num_minutes`, which truncates toward zero, followed
 by a division by 60 to get hours.
 */
module Time {

  /** A `DateTime<Utc>`, as whole seconds on the UTC axis. */
  type Instant = int

  /** `Duration::num_minutes`: the whole minutes in `seconds`, truncated toward zero. */
  function WholeMinutes(seconds: int): (r: int)
    ensures 0 <= seconds ==> 0 <= 60 * r <= seconds < 60 * r + 60
    ensures seconds < 0 ==> 60 * r - 60 < seconds <= 60 * r <= 0
  {
    if seconds >= 0 then seconds / 60 else -((-seconds) / 60)
  }

  /** `(to - from).num_minutes() as f64 / 60.0`: the elapsed hours the source
      works with, counted in whole minutes. */
  function HoursBetween(from: Instant, to: Instant): real
  {
    WholeMinutes(to - from) as real / 60.0
  }

  /** The elapsed hours are negative exactly when `to` lies a full minute or
      more before `from`; anything less than a minute early truncates to zero. */
  lemma HoursNegativeIff(from: Instant, to: Instant)
    ensures HoursBetween(from, to) < 0.0 <==> to <= from - 60
  {
  }

  /** Less than a minute apart, in either direction, counts as no time at all. */
  lemma HoursZeroWithinAMinute(from: Instant, to: Instant)
    requires from - 60 < to < from + 60
    ensures HoursBetween(from, to) == 0.0
  {
  }

  /** An exact number of hours is seen exactly. */
  lemma HoursOfWholeHours(from: Instant, h: nat)
    ensures HoursBetween(from, from + 3600 * h) == h as real
  {
    assert WholeMinutes(3600 * h) == 60 * h;
  }
}

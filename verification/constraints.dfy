/**
 The safety check on a dose schedule: a daily cap on the total amount, a
 minimum gap between consecutive doses, and a time after which no caffeine
 may be taken.

 The gap rule compares each dose with the next one IN THE ORDER GIVEN; the
 schedule is not sorted first. A schedule listed out of time order therefore
 has a negative gap somewhere, which the rule normally rejects.
 */
module ScheduleConstraints {
  import opened Time
  import opened DoseModel

  datatype Constraints = Constraints(
    maxDailyMg: real,
    minGapHours: real,
    noCaffeineAfter: Instant)

  /** The total amount stays within the daily cap. */
  ghost predicate WithinDailyCap(schedule: seq<Dose>, c: Constraints) {
    TotalMg(schedule) <= c.maxDailyMg
  }

  /** Every dose is at least `minGapHours` (in whole minutes) after the one
      listed before it. */
  ghost predicate GapsRespected(schedule: seq<Dose>, minGapHours: real) {
    forall i :: 0 < i < |schedule| ==> HoursBetween(schedule[i - 1].time, schedule[i].time) >= minGapHours
  }

  /** No dose is after the cutoff. */
  ghost predicate NothingAfterCutoff(schedule: seq<Dose>, cutoff: Instant) {
    forall i :: 0 <= i < |schedule| ==> schedule[i].time <= cutoff
  }

  /** The `windows(2)` loop: false at the first adjacent pair closer than the gap. */
  function AdjacentGapsHold(schedule: seq<Dose>, minGapHours: real): (r: bool)
    ensures r <==> GapsRespected(schedule, minGapHours)
  {
    if |schedule| < 2 then true
    else if HoursBetween(schedule[0].time, schedule[1].time) < minGapHours then false
    else
      var rest := AdjacentGapsHold(schedule[1..], minGapHours);
      assert GapsRespected(schedule[1..], minGapHours) ==> GapsRespected(schedule, minGapHours) by {
        if GapsRespected(schedule[1..], minGapHours) {
          forall i | 1 < i < |schedule|
            ensures HoursBetween(schedule[i - 1].time, schedule[i].time) >= minGapHours
          {
            assert schedule[1..][i - 1] == schedule[i];
            assert schedule[1..][i - 2] == schedule[i - 1];
          }
        }
      }
      assert GapsRespected(schedule, minGapHours) ==> GapsRespected(schedule[1..], minGapHours) by {
        if GapsRespected(schedule, minGapHours) {
          forall j | 0 < j < |schedule[1..]|
            ensures HoursBetween(schedule[1..][j - 1].time, schedule[1..][j].time) >= minGapHours
          {
            assert schedule[1..][j] == schedule[j + 1];
          }
        }
      }
      rest
  }

  /** The cutoff loop: false at the first dose after the cutoff. */
  function NoneAfter(schedule: seq<Dose>, cutoff: Instant): (r: bool)
    ensures r <==> NothingAfterCutoff(schedule, cutoff)
  {
    if schedule == [] then true
    else if schedule[0].time > cutoff then false
    else
      var rest := NoneAfter(schedule[1..], cutoff);
      assert NothingAfterCutoff(schedule[1..], cutoff) <==> NothingAfterCutoff(schedule, cutoff) by {
        assert forall j :: 0 <= j < |schedule[1..]| ==> schedule[1..][j] == schedule[j + 1];
      }
      rest
  }

  /** `valid_schedule`: the cap, then the gaps, then the cutoff, each
      returning false at the first violation. The verdict is the conjunction
      of the three rules, so the order of the checks does not matter. */
  function ValidSchedule(schedule: seq<Dose>, c: Constraints): (r: bool)
    ensures r <==>
      && WithinDailyCap(schedule, c)
      && GapsRespected(schedule, c.minGapHours)
      && NothingAfterCutoff(schedule, c.noCaffeineAfter)
  {
    if TotalMg(schedule) > c.maxDailyMg then false
    else if !AdjacentGapsHold(schedule, c.minGapHours) then false
    else if !NoneAfter(schedule, c.noCaffeineAfter) then false
    else true
  }

  /** A schedule of at most one dose never fails the gap rule. */
  lemma ShortSchedulesPassGapRule(schedule: seq<Dose>, minGapHours: real)
    requires |schedule| <= 1
    ensures AdjacentGapsHold(schedule, minGapHours)
  {
  }

  /** The empty schedule is valid exactly when the daily cap is not negative. */
  lemma EmptyScheduleValidIff(c: Constraints)
    ensures ValidSchedule([], c) <==> c.maxDailyMg >= 0.0
  {
  }

  /** With a positive minimum gap, a valid schedule is listed in strictly
      increasing time order, each dose at least a minute after all earlier ones. */
  lemma {:induction false} PositiveGapForcesTimeOrder(schedule: seq<Dose>, c: Constraints)
    requires c.minGapHours > 0.0
    requires ValidSchedule(schedule, c)
    ensures forall i, j :: 0 <= i < j < |schedule| ==> schedule[i].time + 60 <= schedule[j].time
  {
    forall i, j | 0 <= i < j < |schedule|
      ensures schedule[i].time + 60 <= schedule[j].time
    {
      StepsAccumulate(schedule, c.minGapHours, i, j);
    }
  }

  /** Each adjacent step of a positive gap is at least a minute, and the steps add up. */
  lemma {:induction false} StepsAccumulate(schedule: seq<Dose>, minGapHours: real, i: int, j: int)
    requires minGapHours > 0.0
    requires GapsRespected(schedule, minGapHours)
    requires 0 <= i < j < |schedule|
    ensures schedule[i].time + 60 <= schedule[j].time
    decreases j - i
  {
    var step := HoursBetween(schedule[j - 1].time, schedule[j].time);
    assert step >= minGapHours;
    HoursNegativeIff(schedule[j - 1].time, schedule[j].time);
    assert WholeMinutes(schedule[j].time - schedule[j - 1].time) >= 1;
    if i < j - 1 {
      StepsAccumulate(schedule, minGapHours, i, j - 1);
    }
  }

  /** The gap rule reads the schedule in the order given: the same two doses
      pass in time order and fail in reverse order. */
  lemma GapRuleDependsOnListingOrder()
    ensures var c := Constraints(400.0, 1.0, 7200);
            var early := Dose(100.0, 0);
            var late := Dose(100.0, 7200);
            ValidSchedule([early, late], c) && !ValidSchedule([late, early], c)
  {
    var c := Constraints(400.0, 1.0, 7200);
    var early := Dose(100.0, 0);
    var late := Dose(100.0, 7200);
    assert [early, late][1..] == [late] && [late][1..] == [];
    assert [late, early][1..] == [early] && [early][1..] == [];
    assert TotalMg([late]) == 100.0 && TotalMg([early]) == 100.0;
    assert TotalMg([early, late]) == 200.0;
    assert TotalMg([late, early]) == 200.0;
    assert HoursBetween(0, 7200) == 2.0;
    assert HoursBetween(7200, 0) == -2.0;
    assert AdjacentGapsHold([early, late], 1.0);
    assert !AdjacentGapsHold([late, early], 1.0);
  }
}

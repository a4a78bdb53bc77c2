/**
 A caffeine intake event and the total amount a schedule contains.
 */
module DoseModel {
  import opened Time

  /** One intake: `mg` milligrams taken at `time`. */
  datatype Dose = Dose(mg: real, time: Instant)

  /** The sum of the amounts, `schedule.iter().map(|d| d.mg).sum()`. */
  function TotalMg(schedule: seq<Dose>): real
  {
    if schedule == [] then 0.0 else schedule[0].mg + TotalMg(schedule[1..])
  }

  /** Every amount in the schedule is non-negative. */
  predicate NonNegative(schedule: seq<Dose>) {
    forall i :: 0 <= i < |schedule| ==> schedule[i].mg >= 0.0
  }

  /** Totals add up over concatenation. */
  lemma {:induction false} TotalMgAppend(a: seq<Dose>, b: seq<Dose>)
    ensures TotalMg(a + b) == TotalMg(a) + TotalMg(b)
  {
    if a == [] {
      assert a + b == b;
    } else {
      assert (a + b)[1..] == a[1..] + b;
      TotalMgAppend(a[1..], b);
    }
  }

  /** A schedule of non-negative amounts has a non-negative total. */
  lemma {:induction false} TotalMgNonNegative(schedule: seq<Dose>)
    requires NonNegative(schedule)
    ensures TotalMg(schedule) >= 0.0
  {
    if schedule != [] {
      TotalMgNonNegative(schedule[1..]);
    }
  }
}

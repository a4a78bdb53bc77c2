/**
 The floating-point library calls the caffeine model relies on (`f64::exp`,
 `f64::ln`, `f64::powf`, `f64::round`), and the two `f64` helpers it uses on
 plain values (`clamp`, `max`).

 The transcendental functions cannot be computed exactly over `real`, so they
 are not defined here. Instead every computation that needs them takes an
 `Elementary` value carrying them, and every property that depends on how they
 behave requires `Lawful` of it: the handful of facts about the real
 exponential, logarithm, power and rounding functions that the proofs use.
 */
module RealMath {

  /** The library functions, passed as values. `round` stands for
      `x.round() as i64` (nearest integer, ties away from zero). */
  datatype Elementary = Elementary(
    exp: real -> real,
    ln: real -> real,
    powf: (real, real) -> real,
    round: real -> int)

  /** The facts about the real functions that the model is allowed to use. */
  ghost predicate Lawful(m: Elementary) {
    && m.exp(0.0) == 1.0
    && (forall x :: m.exp(x) > 0.0)
    && (forall x, y :: x < y ==> m.exp(x) < m.exp(y))
    // exp undoes ln on the positive reals, stated for the reciprocal
    && (forall y :: y > 0.0 ==> m.exp(-m.ln(y)) * y == 1.0)
    && (forall x :: x > 1.0 ==> m.ln(x) > 0.0)
    && (forall b, e :: b > 0.0 ==> m.powf(b, e) > 0.0)
    && (forall e :: m.powf(1.0, e) == 1.0)
    && (forall x :: -0.5 <= m.round(x) as real - x <= 0.5)
  }

  /** `f64::clamp(x, lo, hi)`: `lo` below the range, `hi` above it, `x` inside. */
  function Clamp(x: real, lo: real, hi: real): (r: real)
    requires lo <= hi
    ensures lo <= r <= hi
    ensures lo <= x <= hi ==> r == x
    ensures x < lo ==> r == lo
    ensures hi < x ==> r == hi
  {
    if x < lo then lo else if x > hi then hi else x
  }

  /** `f64::max` on two ordinary (non-NaN) values. */
  function Max(x: real, y: real): (r: real)
    ensures x <= r && y <= r
    ensures r == x || r == y
  {
    if x < y then y else x
  }

  /** Clamping never reverses the order of two values. */
  lemma ClampMonotone(x: real, y: real, lo: real, hi: real)
    requires lo <= hi
    requires x <= y
    ensures Clamp(x, lo, hi) <= Clamp(y, lo, hi)
  {
  }

  /** The non-strict form of monotonicity of `exp`. */
  lemma ExpMonotone(m: Elementary, x: real, y: real)
    requires Lawful(m)
    requires x <= y
    ensures m.exp(x) <= m.exp(y)
  {
    if x < y {
      assert m.exp(x) < m.exp(y);
    }
  }

  /** ln 2 is positive, so every decay rate built from it is. */
  lemma LnTwoPositive(m: Elementary)
    requires Lawful(m)
    ensures m.ln(2.0) > 0.0
  {
  }

  /** exp(-ln 2) = 1/2: the fact behind the half-life. */
  lemma ExpMinusLnTwo(m: Elementary)
    requires Lawful(m)
    ensures m.exp(-m.ln(2.0)) == 0.5
  {
    assert m.exp(-m.ln(2.0)) * 2.0 == 1.0;
  }

  /** exp of a non-positive argument is at most 1. */
  lemma ExpAtMostOne(m: Elementary, x: real)
    requires Lawful(m)
    requires x <= 0.0
    ensures 0.0 < m.exp(x) <= 1.0
  {
    ExpMonotone(m, x, 0.0);
  }

  /** A rounded non-negative value is a non-negative integer. */
  lemma RoundNonNegative(m: Elementary, x: real)
    requires Lawful(m)
    requires x >= 0.0
    ensures m.round(x) >= 0
  {
    assert m.round(x) as real >= x - 0.5;
  }
}

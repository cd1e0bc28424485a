/**
 What is assumed of a float64 operation: its exact result is passed through a
 rounding `fl`. Only numbers between 1e-7 and 1e18 matter, far from underflow and
 overflow: the relative error is at most 2^-53, rounding is monotone, and 0 and 20 are
 representable. `Binary64.BinaryRoundingQualifies` proves that rounding to nearest as
 in IEEE 754-2019 section 4.3.1 is such a rounding.
 */
module Floats {
  /** Half a unit in the last place of a float64, relative to it. */
  const EPS: real := 1.0 / 9007199254740992.0

  const LEAST: real := 1.0 / 10000000.0
  const GREATEST: real := 1000000000000000000.0

  ghost predicate IsRounding(fl: real -> real) {
    && (forall x: real :: LEAST <= x <= GREATEST ==> x - x * EPS <= fl(x) <= x + x * EPS)
    && (forall x: real, y: real :: LEAST <= x <= y <= GREATEST ==> fl(x) <= fl(y))
    && fl(0.0) == 0.0 && fl(20.0) == 20.0
  }
}

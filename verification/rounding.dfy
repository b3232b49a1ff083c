/** Rounding of an exact charge value to a whole number.

    Two rules appear in the display: the bar uses round-half-away-from-zero
    (the behaviour of `f32::round`), while the percentage text is produced
    by fixed-precision formatting, which rounds a tie to the even neighbour.
    Both are defined here together with a characterisation that does not
    mention `Floor`, and a uniqueness lemma tying the two together. */
module Rounding {

  /** `n` is at distance at most one half from `x`. */
  predicate Nearest(x: real, n: int) {
    (n as real) - 0.5 <= x <= (n as real) + 0.5
  }

  /** `x` lies exactly half-way between two integers, one of which is `n`. */
  predicate Tie(x: real, n: int) {
    x == (n as real) - 0.5 || x == (n as real) + 0.5
  }

  /** `n` is the integer nearest to `x`, and a tie goes away from zero. */
  predicate HalfAwayFromZero(x: real, n: int) {
    && Nearest(x, n)
    && (Tie(x, n) ==> (x > 0.0 ==> (n as real) > x) && (x < 0.0 ==> (n as real) < x))
  }

  /** `n` is the integer nearest to `x`, and a tie goes to the even neighbour. */
  predicate HalfToEven(x: real, n: int) {
    Nearest(x, n) && (Tie(x, n) ==> n % 2 == 0)
  }

  /** Round to nearest, ties away from zero (`f32::round`). */
  function RoundHalfAway(x: real): (n: int)
    ensures HalfAwayFromZero(x, n)
    ensures x >= 0.0 ==> n >= 0
  {
    if x >= 0.0 then (x + 0.5).Floor else -((-x + 0.5).Floor)
  }

  /** Round to nearest, ties to even (the rounding used by `{:.0}`). */
  function RoundHalfEven(x: real): (n: int)
    ensures HalfToEven(x, n)
    ensures x >= 0.0 ==> n >= 0
  {
    var up := (x + 0.5).Floor;
    if (up as real) == x + 0.5 && up % 2 != 0 then up - 1 else up
  }

  /** The characterisation singles out one integer: any other integer that
      rounds `x` half away from zero is `RoundHalfAway(x)`. */
  lemma HalfAwayUnique(x: real, m: int)
    requires HalfAwayFromZero(x, m)
    ensures m == RoundHalfAway(x)
  {
  }

  /** Likewise for ties to even. */
  lemma HalfEvenUnique(x: real, m: int)
    requires HalfToEven(x, m)
    ensures m == RoundHalfEven(x)
  {
  }

  /** The two rules agree everywhere except on ties. */
  lemma RulesAgreeOffTies(x: real)
    requires !Tie(x, RoundHalfAway(x))
    ensures RoundHalfAway(x) == RoundHalfEven(x)
  {
  }

  /** Rounding half away from zero is symmetric about zero. */
  lemma HalfAwaySymmetric(x: real)
    ensures RoundHalfAway(-x) == -RoundHalfAway(x)
  {
  }

  /** Rounding half away from zero never decreases as `x` grows. */
  lemma HalfAwayMonotone(x: real, y: real)
    requires x <= y
    ensures RoundHalfAway(x) <= RoundHalfAway(y)
  {
  }
}

/**
 * Rounding of an exact rational to an integer, as the two LUT generators do it
 * before saturating to 16 bits:
 *  - Python's built-in round() on a float: nearest integer, ties to even;
 *  - floor(x + 0.5): nearest integer, ties upwards.
 * Each rounding function is paired with an independent description of the
 * integer it must return (a predicate on the distance to x) and a lemma that
 * the description picks out exactly one integer.
 */
module Rounding {

  /** k is an integer nearest to x, and when x lies exactly half-way between
      two integers, k is the even one. */
  ghost predicate NearestTiesEven(x: real, k: int) {
    var d := k as real - x;
    && -0.5 <= d <= 0.5
    && ((d == 0.5 || d == -0.5) ==> k % 2 == 0)
  }

  /** k is an integer nearest to x, and when x lies exactly half-way between
      two integers, k is the upper one. */
  ghost predicate NearestTiesUp(x: real, k: int) {
    var d := k as real - x;
    -0.5 < d <= 0.5
  }

  /** Python 3 round(x) with no digit count: banker's rounding. */
  function RoundHalfEven(x: real): (k: int)
    ensures NearestTiesEven(x, k)
  {
    var f := x.Floor;
    var frac := x - f as real;
    if frac < 0.5 then f
    else if frac > 0.5 then f + 1
    else if f % 2 == 0 then f
    else f + 1
  }

  /** floor(x + 0.5): round to nearest, exact halves go up. */
  function RoundHalfUp(x: real): (k: int)
    ensures NearestTiesUp(x, k)
  {
    (x + 0.5).Floor
  }

  /** The description NearestTiesEven singles out RoundHalfEven(x). */
  lemma RoundHalfEvenUnique(x: real, k: int)
    requires NearestTiesEven(x, k)
    ensures k == RoundHalfEven(x)
  {
  }

  /** The description NearestTiesUp singles out RoundHalfUp(x). */
  lemma RoundHalfUpUnique(x: real, k: int)
    requires NearestTiesUp(x, k)
    ensures k == RoundHalfUp(x)
  {
  }

  /** Rounding half-to-even never reverses the order of two values. */
  lemma RoundHalfEvenMonotone(x: real, y: real)
    requires x <= y
    ensures RoundHalfEven(x) <= RoundHalfEven(y)
  {
  }

  /** floor(x + 0.5) never reverses the order of two values. */
  lemma RoundHalfUpMonotone(x: real, y: real)
    requires x <= y
    ensures RoundHalfUp(x) <= RoundHalfUp(y)
  {
  }

  /** Half-to-even rounding is symmetric about zero: round(-x) == -round(x). */
  lemma RoundHalfEvenSymmetric(x: real)
    ensures RoundHalfEven(-x) == -RoundHalfEven(x)
  {
    var k := RoundHalfEven(x);
    assert NearestTiesEven(-x, -k);
    RoundHalfEvenUnique(-x, -k);
  }

  /** Integers are left alone by both roundings. */
  lemma RoundingFixesIntegers(k: int)
    ensures RoundHalfEven(k as real) == k
    ensures RoundHalfUp(k as real) == k
  {
    assert NearestTiesEven(k as real, k);
    RoundHalfEvenUnique(k as real, k);
    assert NearestTiesUp(k as real, k);
    RoundHalfUpUnique(k as real, k);
  }
}

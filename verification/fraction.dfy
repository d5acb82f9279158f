/**
 * The diff engines report a DiffAmount as a float64 quotient of two counts, capped at 1.0.
 * The model keeps the numerator and denominator as naturals instead.
 */
module Fraction {

  datatype Fraction = Fraction(num: nat, den: nat)

  const Zero: Fraction := Fraction(0, 1)
  const One: Fraction := Fraction(1, 1)

  /** part / total, 0 when total is 0, and 1 when the quotient would exceed 1. */
  function CappedRatio(part: nat, total: nat): (r: Fraction)
    ensures r.den > 0 && r.num <= r.den
    ensures total == 0 ==> r.num == 0
    ensures 0 < total && part <= total ==> r == Fraction(part, total)
    ensures 0 < total < part ==> r.num == r.den
  {
    if total == 0 then Zero
    else if part > total then One
    else Fraction(part, total)
  }

  /** Two fractions denote the same rational number. */
  predicate SameValue(a: Fraction, b: Fraction)
    requires a.den > 0 && b.den > 0
  {
    a.num * b.den == b.num * a.den
  }
}

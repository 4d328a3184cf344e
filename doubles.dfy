/**
  A Java `double` as far as a range uses it: bounds and readings are only
  compared and tested for NaN, never added or scaled, so a finite value is kept
  as an exact `real` and the non-finite values are three tags.

  The ordered comparisons follow section 5.11 of IEEE 754-2008, as Java's `<`,
  `<=`, `>` and `>=` on `double` do: NaN is unordered with everything, itself
  included, so every ordered comparison with a NaN operand is false.
 */
module Doubles {

  datatype Double = NaN | NegInf | Finite(value: real) | PosInf

  /** `Double.isNaN(x)`: a NaN is the one value not equal to itself. */
  predicate IsNaN(x: Double)
    ensures IsNaN(x) <==> !LessEq(x, x)
  {
    x.NaN?
  }

  /** Java `x < y` */
  predicate Less(x: Double, y: Double)
    ensures Less(x, y) ==> !x.NaN? && !y.NaN?
    ensures Less(x, y) ==> x != y
  {
    match (x, y)
    case (NegInf, Finite(_)) => true
    case (NegInf, PosInf) => true
    case (Finite(a), Finite(b)) => a < b
    case (Finite(_), PosInf) => true
    case _ => false
  }

  /** Java `x <= y`: less, or numerically equal (which a NaN never is) */
  predicate LessEq(x: Double, y: Double)
    ensures LessEq(x, y) ==> !x.NaN? && !y.NaN?
  {
    Less(x, y) || (x == y && !x.NaN?)
  }

  /** Java `x > y`: false with a NaN operand; between numbers, "not at most". */
  predicate Greater(x: Double, y: Double)
    ensures Greater(x, y) ==> !IsNaN(x) && !IsNaN(y)
    ensures !IsNaN(x) && !IsNaN(y) ==> (Greater(x, y) <==> !LessEq(x, y))
  {
    Less(y, x)
  }

  /** Java `x >= y`: false with a NaN operand; between numbers, "not below". */
  predicate GreaterEq(x: Double, y: Double)
    ensures GreaterEq(x, y) ==> !IsNaN(x) && !IsNaN(y)
    ensures !IsNaN(x) && !IsNaN(y) ==> (GreaterEq(x, y) <==> !Less(x, y))
  {
    LessEq(y, x)
  }
}

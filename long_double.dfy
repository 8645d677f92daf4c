/** The renderer's `long double` exponents: finite reals, the two infinities and NaN.
    Rounding is not modelled; comparisons follow IEEE 754, so every ordered comparison
    that involves NaN is false. */
module LongDouble {
  datatype Exp = Fin(v: real) | PosInf | NegInf | NaN

  /** `std::isfinite(e)` */
  predicate IsFinite(e: Exp) { e.Fin? }

  /** `std::isnan(e)` */
  predicate IsNaN(e: Exp) { e.NaN? }

  /** `e >= 0` under IEEE comparison */
  predicate GeZero(e: Exp)
  {
    match e
    case Fin(v) => v >= 0.0
    case PosInf => true
    case NegInf => false
    case NaN => false
  }

  /** `e < 0` under IEEE comparison */
  predicate LtZero(e: Exp)
  {
    match e
    case Fin(v) => v < 0.0
    case PosInf => false
    case NegInf => true
    case NaN => false
  }

  /** `e > 0` under IEEE comparison */
  predicate GtZero(e: Exp)
  {
    match e
    case Fin(v) => v > 0.0
    case PosInf => true
    case NegInf => false
    case NaN => false
  }

  /** NaN is neither `>= 0` nor `< 0`; every other value is exactly one of the two. */
  lemma SignTest(e: Exp)
    ensures GeZero(e) != LtZero(e) <==> !IsNaN(e)
    ensures IsNaN(e) ==> !GeZero(e) && !LtZero(e) && !GtZero(e)
  {
  }
}

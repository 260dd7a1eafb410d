/** Double-precision values as the parameter code handles them: a finite value,
    one of the two infinities, or NaN, which the program uses to mean "this
    parameter was not provided".  Finite values are exact reals: rounding and
    signed zeros are not modelled. */
module Doubles {

  datatype Double = NaN | Num(v: real) | PosInf | NegInf

  /** `isnan(a)` */
  predicate IsNaN(a: Double) { a.NaN? }

  /** `a < b`; false as soon as one operand is NaN. */
  predicate Lt(a: Double, b: Double)
  {
    match (a, b)
    case (NaN, _) => false
    case (_, NaN) => false
    case (NegInf, NegInf) => false
    case (NegInf, _) => true
    case (_, NegInf) => false
    case (PosInf, _) => false
    case (Num(x), Num(y)) => x < y
    case (Num(_), PosInf) => true
  }

  /** `a == b`; NaN equals nothing, itself included. */
  predicate Eq(a: Double, b: Double) { a == b && !a.NaN? }

  /** `a != b`; true whenever an operand is NaN. */
  predicate Ne(a: Double, b: Double) { !Eq(a, b) }

  predicate Gt(a: Double, b: Double) { Lt(b, a) }
  predicate Le(a: Double, b: Double) { Lt(a, b) || Eq(a, b) }
  predicate Ge(a: Double, b: Double) { Le(b, a) }

  /** The truth value of a double used as a condition: `if(a)` holds unless `a` is zero. */
  predicate Truthy(a: Double) { Ne(a, Num(0.0)) }

  /** Strictly positive, infinity included. */
  predicate Positive(a: Double) { a == PosInf || (a.Num? && a.v > 0.0) }

  function Neg(a: Double): Double
  {
    match a
    case NaN => NaN
    case Num(x) => Num(-x)
    case PosInf => NegInf
    case NegInf => PosInf
  }

  function Add(a: Double, b: Double): Double
  {
    if a.NaN? || b.NaN? then NaN
    else if a.Num? && b.Num? then Num(a.v + b.v)
    else if a.Num? then b
    else if b.Num? then a
    else if a == b then a
    else NaN
  }

  function Sub(a: Double, b: Double): Double { Add(a, Neg(b)) }

  function Mul(a: Double, b: Double): Double
  {
    if a.NaN? || b.NaN? then NaN
    else if a.Num? && b.Num? then Num(a.v * b.v)
    else if a == Num(0.0) || b == Num(0.0) then NaN
    else if Positive(a) == Positive(b) then PosInf
    else NegInf
  }

  function Div(a: Double, b: Double): Double
  {
    if a.NaN? || b.NaN? then NaN
    else if a.Num? && b.Num? then
      if b.v != 0.0 then Num(a.v / b.v)
      else if a.v == 0.0 then NaN
      else if a.v > 0.0 then PosInf
      else NegInf
    else if !a.Num? && !b.Num? then NaN
    else if a.Num? then Num(0.0)
    else if Positive(a) == (b.v >= 0.0) then PosInf
    else NegInf
  }

  /** A product of doubles is a finite number exactly when both factors are,
      and then it is the exact product of their values. */
  lemma MulFinite(a: Double, b: Double)
    ensures Mul(a, b).Num? <==> a.Num? && b.Num?
    ensures Mul(a, b).Num? ==> Mul(a, b).v == a.v * b.v
  {
  }

  /** A quotient is a finite number when both operands are finite and the
      divisor is not zero, or when a finite number is divided by an infinity. */
  lemma DivFinite(a: Double, b: Double)
    ensures Div(a, b).Num? <==> a.Num? && ((b.Num? && b.v != 0.0) || b == PosInf || b == NegInf)
    ensures a.Num? && b.Num? && b.v != 0.0 ==> Div(a, b) == Num(a.v / b.v)
  {
  }
}

/**
  Numbers as the analysis sees them: a JavaScript number is either a finite
  value, one of the two infinities, or NaN. Finite values are exact reals (no
  rounding), and a zero is always the positive zero.

  Only the operations the analysis uses are given: negation, addition and
  subtraction, scaling by a positive constant, division, the strict comparison
  and Math.max / Math.min of two values.
*/
module Numbers {

  datatype Option<T> = None | Some(value: T)

  datatype Num = Finite(r: real) | PosInf | NegInf | NaN

  function Neg(a: Num): Num {
    match a
    case Finite(x) => Finite(-x)
    case PosInf => NegInf
    case NegInf => PosInf
    case NaN => NaN
  }

  /** `a + b`: NaN absorbs, opposite infinities give NaN. */
  function Add(a: Num, b: Num): (r: Num)
    ensures a.Finite? && b.Finite? ==> r == Finite(a.r + b.r)
    ensures r.NaN? <==> a.NaN? || b.NaN? || (a.PosInf? && b.NegInf?) || (a.NegInf? && b.PosInf?)
  {
    if a.NaN? || b.NaN? then NaN
    else if (a.PosInf? && b.NegInf?) || (a.NegInf? && b.PosInf?) then NaN
    else if a.PosInf? || b.PosInf? then PosInf
    else if a.NegInf? || b.NegInf? then NegInf
    else Finite(a.r + b.r)
  }

  /** `a - b` */
  function Sub(a: Num, b: Num): Num {
    Add(a, Neg(b))
  }

  /** `a * c` for a positive finite constant `c` (the 1.5 of an IQR fence). */
  function Scale(a: Num, c: real): (r: Num)
    requires c > 0.0
    ensures r.Finite? <==> a.Finite?
  {
    match a
    case Finite(x) => Finite(x * c)
    case _ => a
  }

  /** `a / b`; a zero divisor is the positive zero. */
  function Div(a: Num, b: Num): Num {
    if a.NaN? || b.NaN? then NaN
    else if b.Finite? && b.r != 0.0 then
      match a
      case Finite(x) => Finite(x / b.r)
      case PosInf => if b.r > 0.0 then PosInf else NegInf
      case NegInf => if b.r > 0.0 then NegInf else PosInf
    else if b.Finite? then
      // division by (positive) zero
      match a
      case Finite(x) => if x > 0.0 then PosInf else if x < 0.0 then NegInf else NaN
      case _ => a
    else
      // division by an infinity
      if a.Finite? then Finite(0.0) else NaN
  }

  /** `a < b`: false whenever NaN is involved. */
  predicate Less(a: Num, b: Num) {
    if a.NaN? || b.NaN? then false
    else if a.NegInf? then !b.NegInf?
    else if a.PosInf? || b.NegInf? then false
    else if b.PosInf? then true
    else a.r < b.r
  }

  /** `Math.max(a, b)` */
  function Max(a: Num, b: Num): (r: Num)
    ensures !a.NaN? && !b.NaN? ==> (r == a || r == b) && !Less(r, a) && !Less(r, b)
  {
    if a.NaN? || b.NaN? then NaN else if Less(a, b) then b else a
  }

  /** `Math.min(a, b)` */
  function Min(a: Num, b: Num): (r: Num)
    ensures !a.NaN? && !b.NaN? ==> (r == a || r == b) && !Less(a, r) && !Less(b, r)
  {
    if a.NaN? || b.NaN? then NaN else if Less(b, a) then b else a
  }

  /** A value strictly between two others is finite. */
  lemma BetweenIsFinite(a: Num, b: Num, c: Num)
    requires Less(a, b) && Less(b, c)
    ensures b.Finite?
  {
  }
}

/** JavaScript numbers as the scripts use them: a finite value, one of the two
    infinities, or NaN. Rounding, overflow and the sign of zero are not
    modelled; every zero is +0. */
module JsNumber {

  datatype Num = Fin(r: real) | PosInf | NegInf | NaN

  function Abs(x: real): (a: real)
    ensures a >= 0.0
    ensures a == x || a == -x
  {
    if x < 0.0 then -x else x
  }

  function Inf(positive: bool): Num {
    if positive then PosInf else NegInf
  }

  /** `a >= t` against a numeric literal `t`; false whenever `a` is NaN. */
  predicate AtLeast(a: Num, t: real) {
    match a
    case Fin(x) => x >= t
    case PosInf => true
    case NegInf => false
    case NaN => false
  }

  /** Reaching a threshold means reaching every lower one. */
  lemma AtLeastLower(a: Num, t: real, u: real)
    requires AtLeast(a, t) && u <= t
    ensures AtLeast(a, u)
  {
  }

  function Neg(a: Num): Num {
    match a
    case Fin(x) => Fin(-x)
    case PosInf => NegInf
    case NegInf => PosInf
    case NaN => NaN
  }

  function Add(a: Num, b: Num): Num {
    match (a, b)
    case (NaN, _) => NaN
    case (_, NaN) => NaN
    case (PosInf, NegInf) => NaN
    case (NegInf, PosInf) => NaN
    case (PosInf, _) => PosInf
    case (_, PosInf) => PosInf
    case (NegInf, _) => NegInf
    case (_, NegInf) => NegInf
    case (Fin(x), Fin(y)) => Fin(x + y)
  }

  function Sub(a: Num, b: Num): Num {
    Add(a, Neg(b))
  }

  function Mul(a: Num, b: Num): Num {
    match (a, b)
    case (NaN, _) => NaN
    case (_, NaN) => NaN
    case (Fin(x), Fin(y)) => Fin(x * y)
    case (Fin(x), _) => if x == 0.0 then NaN else Inf((x > 0.0) == b.PosInf?)
    case (_, Fin(y)) => if y == 0.0 then NaN else Inf((y > 0.0) == a.PosInf?)
    case (_, _) => Inf(a == b)
  }

  function Div(a: Num, b: Num): Num {
    match (a, b)
    case (NaN, _) => NaN
    case (_, NaN) => NaN
    case (Fin(x), Fin(y)) =>
      if y != 0.0 then Fin(x / y)
      else if x == 0.0 then NaN
      else Inf(x > 0.0)
    case (Fin(x), _) => Fin(0.0)
    case (_, Fin(y)) => Inf((y >= 0.0) == a.PosInf?)
    case (_, _) => NaN
  }

  /** `Math.abs`. */
  function AbsNum(a: Num): Num {
    match a
    case Fin(x) => Fin(Abs(x))
    case NaN => NaN
    case _ => PosInf
  }

  /** `parseInt` applied to a finite number: truncation toward zero. */
  function Trunc(x: real): (n: int)
    ensures x >= 0.0 ==> 0 <= n && n as real <= x < n as real + 1.0
    ensures x < 0.0 ==> n <= 0 && n as real - 1.0 < x <= n as real
  {
    if x >= 0.0 then x.Floor else -((-x).Floor)
  }
}

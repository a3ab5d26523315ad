/** JavaScript values as the ledger and its pages see them: an optional
    input, a number that may be NaN, and the coercions `Number(x) || 0`,
    `Number(x)` and `x || 0` that the code applies to user input. */
module Js {

  /** An optional input: `None` is a field that is `undefined`, missing or
      (for numeric text) not a number. */
  datatype Option<+T> = None | Some(value: T) {
    function GetOr(default: T): T {
      match this
      case Some(v) => v
      case None => default
    }
  }

  /** The outcome of an operation that may throw: a value or the error. */
  datatype Result<+T, +E> = Ok(value: T) | Err(error: E)

  /** A JavaScript number: a finite value or NaN (infinities are not modelled). */
  datatype Num = Finite(v: real) | NaN

  /** `Number(x) || 0`: a missing or non-numeric input becomes 0; 0 stays 0. */
  function NumberOrZero(x: Option<real>): (r: real)
    ensures x.Some? ==> r == x.value
    ensures x.None? ==> r == 0.0
  {
    x.GetOr(0.0)
  }

  /** `Number(x)` for an input that is a number or `undefined`:
      `Number(undefined)` is NaN, never `null` or `undefined`. */
  function ToNumber(x: Option<real>): (r: Num)
    ensures r.NaN? <==> x.None?
    ensures x.Some? ==> r == Finite(x.value)
  {
    match x
    case Some(v) => Finite(v)
    case None => NaN
  }

  /** `n || 0` on a number: NaN and 0 are falsy and give 0. */
  function OrZero(n: Num): (r: real)
    ensures n.Finite? ==> r == n.v
    ensures n.NaN? ==> r == 0.0
  {
    match n
    case Finite(v) => v
    case NaN => 0.0
  }

  /** `q * n`: NaN is absorbing. */
  function Times(q: real, n: Num): (r: Num)
    ensures r.NaN? <==> n.NaN?
    ensures n.Finite? ==> r.v == q * n.v
  {
    match n
    case Finite(v) => Finite(q * v)
    case NaN => NaN
  }

  /** A falsy number: 0 or NaN. */
  predicate Falsy(n: Num) {
    n == NaN || n == Finite(0.0)
  }
}

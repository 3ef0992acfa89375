/**
 * The JavaScript values the validators inspect: `typeof` distinguishes
 * strings, numbers and the rest; a number is an IEEE double seen as an
 * extended real (finite, NaN or one of the two infinities).
 */
module JsValues {

  /** A JavaScript number; its finite values are modelled as exact reals. */
  datatype Num = NaN | PosInf | NegInf | Finite(x: real)

  /** A JavaScript value as far as the validators look at it. `Object` stands for arrays, dates and other objects. */
  datatype Value = Undefined | Null | Bool(b: bool) | Number(n: Num) | Str(s: string) | Object

  /** `isFinite(n)` on a number. */
  predicate IsFinite(n: Num) {
    n.Finite?
  }

  /** `n < b` for a number and a finite bound: false on NaN. */
  predicate Below(n: Num, b: real) {
    match n
    case NaN => false
    case PosInf => false
    case NegInf => true
    case Finite(x) => x < b
  }

  /** `n > b` for a number and a finite bound: false on NaN. */
  predicate Above(n: Num, b: real) {
    match n
    case NaN => false
    case PosInf => true
    case NegInf => false
    case Finite(x) => x > b
  }

  /** `n <= b`: false on NaN. */
  predicate AtMost(n: Num, b: real) {
    match n
    case NaN => false
    case PosInf => false
    case NegInf => true
    case Finite(x) => x <= b
  }

  /** `n >= b`: false on NaN. */
  predicate AtLeast(n: Num, b: real) {
    match n
    case NaN => false
    case PosInf => true
    case NegInf => false
    case Finite(x) => x >= b
  }
}

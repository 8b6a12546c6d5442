/** Types the other modules share. */
module Wrappers {
  datatype Option<+T> = None | Some(value: T)

  datatype Result<+T, +E> = Ok(value: T) | Err(error: E)

  /** A double without its rounding: a real number, an infinity or NaN. */
  datatype Double = Number(value: real) | PositiveInfinity | NegativeInfinity | NaN

  // Comparisons as doubles make them: every one with NaN is false.
  predicate Less(a: Double, b: Double) {
    match (a, b)
    case (Number(x), Number(y)) => x < y
    case (NegativeInfinity, Number(_)) => true
    case (NegativeInfinity, PositiveInfinity) => true
    case (Number(_), PositiveInfinity) => true
    case _ => false
  }

  predicate AtMost(a: Double, b: Double) {
    Less(a, b) || (a == b && !a.NaN?)
  }
}

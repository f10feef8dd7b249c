/** Small shared vocabulary: optional values, results, and the Java `int` range. */
module Common {

  datatype Option<+T> = None | Some(value: T) {
    function GetOr(default: T): T {
      match this
      case Some(v) => v
      case None => default
    }
  }

  datatype Result<+T, +E> = Ok(value: T) | Err(error: E)

  /** The runtime exceptions that end the handling of a change. */
  datatype Failure =
    | LookupInterrupted // the config retrieval timed out or was interrupted
    | MissingValue      // a created or updated change without a value

  const INT_MIN: int := -0x8000_0000
  const INT_MAX: int := 0x7FFF_FFFF
  const LONG_MIN: int := -0x8000_0000_0000_0000
  const LONG_MAX: int := 0x7FFF_FFFF_FFFF_FFFF

  /** A value of Java's 32-bit `int`. */
  type Int32 = x: int | INT_MIN <= x <= INT_MAX

  /** Java's unary minus on `int`: wraps around at the most negative value. */
  function Negate(x: Int32): (r: Int32)
    ensures x != INT_MIN ==> r + x == 0
    ensures x == INT_MIN ==> r == INT_MIN
  {
    if x == INT_MIN then x else -x
  }

  function Min(a: int, b: int): int {
    if a <= b then a else b
  }
}

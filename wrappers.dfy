/** Failure-compatible wrappers used throughout the model: `Option` for the
    source's `None` results and `Result` for the exceptions it raises. */
module Wrappers {
  datatype Option<+T> = None | Some(value: T)

  /** The exceptions the modelled code raises or catches. */
  datatype Error =
    | ValueError
    | IndexError
    | ZeroDivisionError
    | TypeError
    | FileNotFoundError
    | RuntimeError
    | UnsupportedFormat
    | NoProcessedImage
    | AttributeError

  datatype Result<+T> = Ok(value: T) | Err(error: Error)
}

/** Python's numeric conversions that the modelled code relies on. */
module Numbers {
  /** Python `int(x)` on a float: truncation toward zero. */
  function Trunc(x: real): (r: int)
    ensures x >= 0.0 ==> r as real <= x < r as real + 1.0
    ensures x < 0.0 ==> r as real - 1.0 < x <= r as real
    ensures x >= 0.0 ==> r >= 0
  {
    if x >= 0.0 then x.Floor else -((-x).Floor)
  }

  /** Truncating a real at or above an integer keeps it at or above that integer. */
  lemma TruncAtLeast(x: real, n: int)
    requires n as real <= x
    ensures n <= Trunc(x)
  {
  }

  function Min(a: int, b: int): int { if a <= b then a else b }
  function Max(a: int, b: int): int { if a >= b then a else b }
  function MinR(a: real, b: real): real { if a <= b then a else b }
  function MaxR(a: real, b: real): real { if a >= b then a else b }
  function AbsR(a: real): real { if a >= 0.0 then a else -a }
  function Abs(a: int): int { if a >= 0 then a else -a }
}

/** Shared value types. */
module Prelude {
  datatype Option<+T> = None | Some(value: T)

  datatype Result<+T, +E> = Ok(value: T) | Err(error: E)

  function Max(a: int, b: int): int {
    if a >= b then a else b
  }

  function Min(a: int, b: int): int {
    if a <= b then a else b
  }

  /** Python's `int(r)` on a float: truncation toward zero. */
  function ToInt(r: real): int {
    if r >= 0.0 then r.Floor else -((-r).Floor)
  }
}

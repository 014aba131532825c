/** Option and Result, the two wrappers the model needs for Python's
    "missing value" and "raises an exception". */
module Wrappers {

  datatype Option<+T> = None | Some(value: T)

  datatype Result<+T, +E> = Ok(value: T) | Err(error: E)

  /** Python's `x or d` on an optional non-negative integer attribute: the
      fallback is taken when `x` is missing AND when it is 0, since 0 is falsy. */
  function OrElse(x: Option<nat>, d: nat): (r: nat)
    ensures r == d || (x.Some? && r == x.value && r != 0)
    ensures x.Some? && x.value != 0 ==> r == x.value
  {
    if x.Some? && x.value != 0 then x.value else d
  }
}

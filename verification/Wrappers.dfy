/** Optional values, outcomes, bytes and saturating sums, shared by the models. */
module Wrappers {

  datatype Option<+T> = None | Some(value: T)

  /** The outcome of an operation that the source reports as `Ok(())` or an error. */
  datatype Outcome<+E> = Ok | Err(error: E)

  type Byte = b: int | 0 <= b < 256

  function SaturatingAdd(a: nat, b: nat, max: nat): nat {
    if a + b <= max then a + b else max
  }

  function Min(a: int, b: int): int {
    if a <= b then a else b
  }
}

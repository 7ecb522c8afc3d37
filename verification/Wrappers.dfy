/** Shared basics. */
module Wrappers {
  datatype Option<+T> = None | Some(value: T)

  datatype Result<+R, +E> = Ok(value: R) | Err(error: E)

  /** Instants and durations in one common unit; 0 is Go's zero `time.Time`. */
  type Instant = nat

  /** `uint64` addition wraps. */
  const WORD: nat := 0x1_0000_0000_0000_0000

  function ToSet<T>(s: seq<T>): set<T> { set x | x in s }
}

/** What several components share: an optional value, the smaller of two numbers, and time. */
module Basics {
  datatype Option<T> = None | Some(value: T)

  function Min(a: nat, b: nat): nat { if a <= b then a else b }

  /** Instants and durations in nanoseconds. */
  type Time = nat
  const SECOND: nat := 1_000_000_000
  const MINUTE: nat := 60 * SECOND
}

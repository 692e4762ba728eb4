/** A value that may be missing. */
module Wrappers {
  datatype Option<T> = None | Some(value: T)
}

/** Times and durations are in nanoseconds. */
module Durations {
  const SECOND: int := 1_000_000_000
}

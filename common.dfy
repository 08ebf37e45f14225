/** Failure-carrying result types shared by the stores. */
module Results {

  /** A value that may be absent; a nil pointer in the source. */
  datatype Option<T> = None | Some(value: T)

  /** The value of an operation, or the error it returned instead. */
  datatype Result<T, E> = Ok(value: T) | Err(error: E)

  /** The outcome of an operation that returns only an error. */
  datatype Outcome<E> = Pass | Fail(error: E)
}

/**
 * Wall-clock instants and durations, both as integer nanoseconds, as the
 * source's time.Time and time.Duration are. Integers are unbounded here.
 */
module Durations {

  /** An instant, in nanoseconds since the epoch. */
  type Time = int

  /** A span of time, in nanoseconds. */
  type Duration = int

  const Second: Duration := 1_000_000_000
  const Minute: Duration := 60 * Second
  const Hour: Duration := 60 * Minute
}

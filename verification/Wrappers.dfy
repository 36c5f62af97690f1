/** Optional values, and results that carry the reason of a refusal. */
module Wrappers {

  datatype Option<+T> = None | Some(value: T)

  /** Outcome of an operation that either returns a value or refuses. */
  datatype Result<+T> = Success(value: T) | Refused(reason: string)
}

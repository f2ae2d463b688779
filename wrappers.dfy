/** Failure-carrying values: a missing cell, a failed selection, a fatal error. */
module Wrappers {

  /** A table cell or a selection that may be absent (pandas' NaN / an empty arg-max). */
  datatype Option<T> = None | Some(value: T)

  /** The outcome of a run that either completes or aborts with an error. */
  datatype Result<T, E> = Ok(value: T) | Err(error: E)
}

/** Failure-carrying values shared by the other modules. */
module Wrappers {

  /** A value that may be absent: a NULL pointer, or a search that found nothing. */
  datatype Option<+T> = None | Some(value: T)

  /** A value or the reason there is none (a build error, for instance). */
  datatype Result<+T, +E> = Ok(value: T) | Err(error: E)
}

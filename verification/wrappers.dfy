/** Failure-carrying values used in place of the source's exceptions and sentinel returns. */
module Wrappers {

  /** A value that may be absent, e.g. a search that can return `npos`. */
  datatype Option<+T> = None | Some(value: T)

  /** Either a computed value or the reason it could not be computed. */
  datatype Result<+T, +E> = Success(value: T) | Failure(error: E)
}

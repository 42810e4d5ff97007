/** Option and Result values shared by the modules of this model. */
module Wrappers {

  datatype Option<+T> = None | Some(value: T)

  /** A computation that either succeeds with a value or stops with an error,
      the way the modelled code either returns or raises. */
  datatype Result<+T, +E> = Success(value: T) | Failure(error: E)
}

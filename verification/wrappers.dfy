/** Failure-carrying datatypes shared by the whole model. */
module Wrappers {

  /** A value that may be absent (a JavaScript `undefined`/`null`, a missing cookie). */
  datatype Option<+T> = None | Some(value: T)

  /** Either a computed value or the error the source would throw or return. */
  datatype Result<+R, +E> = Success(value: R) | Failure(error: E)
}

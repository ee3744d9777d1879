/** Failure-carrying wrappers shared by every module of the model. */
module Results {

  /** A value that may be absent: Go's nil slice, a missing map entry, a step that produced nothing. */
  datatype Option<+T> = None | Some(value: T)

  /** A Go `(value, error)` pair: exactly one of the two is meaningful. */
  datatype Result<+T, +E> = Success(value: T) | Failure(error: E)
}

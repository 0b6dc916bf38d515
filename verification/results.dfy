/** Failure-carrying values shared by the rest of the model. */
module Results {

  /** A value that may be absent; `None` also stands for JavaScript's NaN
      where a numeric parse can fail. */
  datatype Option<+T> = None | Some(value: T)

  /** The outcome of an operation that can throw. */
  datatype Result<+T, +E> = Success(value: T) | Failure(error: E)
}

/** Failure-carrying result types shared by every module of the model. */
module Results {

  /** A value that may be missing: Python's `None` or a present value. */
  datatype Option<T> = None | Some(value: T)

  /** The outcome of an operation that either produces a value or raises. */
  datatype Result<T, E> = Ok(value: T) | Err(error: E)
}

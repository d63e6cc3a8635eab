/** Success/failure wrappers used for the exceptions of the modelled code. */
module Results {

  /** A value that may be absent (Python's `None`). */
  datatype Option<+T> = None | Some(value: T)

  /** The outcome of an operation that raises an exception on failure. */
  datatype Result<+T, +E> = Ok(value: T) | Err(error: E)
}

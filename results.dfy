/** Optional values and error-carrying results shared by the modules of the photo-report model. */
module Results {

  /** A value that may be absent: JavaScript's `null` (or a handler that is not attached). */
  datatype Option<+T> = None | Some(value: T)

  /** The outcome of an operation that can throw: a value, or the message of the thrown error. */
  datatype Result<+T, +E> = Ok(value: T) | Err(error: E)
}

/** Nullable values and the outcome of an operation that may throw. */
module Results {

  /** A value that may be `null` (or `undefined`) in the source. */
  datatype Option<+T> = None | Some(value: T)

  /** Either the value an operation returns or what it throws. */
  datatype Result<+T, +E> = Ok(value: T) | Err(error: E)
}

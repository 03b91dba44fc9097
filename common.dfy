/** Optional values and results shared by every module of the model. */
module Common {

  /** A value that may be absent: Java's `null` stands for `None`. */
  datatype Option<+T> = None | Some(value: T)

  /** A computation that either yields a value or fails with an error. */
  datatype Result<+T, +E> = Ok(value: T) | Err(error: E)
}

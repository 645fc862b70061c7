/** Small result types shared by every module. */
module Common {

  /** A value that the source may leave `undefined`. */
  datatype Option<+T> = None | Some(value: T)

  /** A call that returns a value or throws. */
  datatype Result<+T, +E> = Ok(value: T) | Err(error: E)
}

/** Failure-carrying wrappers shared by every module of the model. */
module Base {

  /** A value that may be absent (`undefined` / `null` on the TypeScript side). */
  datatype Option<+T> = None | Some(value: T)

  /** Either a value or an error condition. */
  datatype Result<+T, +E> = Ok(value: T) | Err(error: E)
}

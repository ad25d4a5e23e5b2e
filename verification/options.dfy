/** Failure-aware wrappers shared by the model: a nullable reference and an
    operation that either succeeds or reports why it aborted. */
module Options {

  /** A possibly-null handle: `None` is a null reference or an absent buffer. */
  datatype Option<+T> = None | Some(value: T)

  /** The result of an operation whose failure is reported to the caller. */
  datatype Result<+T, +E> = Ok(value: T) | Err(error: E)
}

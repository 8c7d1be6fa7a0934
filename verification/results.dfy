/** Failure-carrying values shared by every module of the model. */
module Results {

  /** An optional value: Python's `None` or a present value. */
  datatype Option<+T> = None | Some(value: T)

  /** The outcome of a step that may raise: a value, or the exception's message. */
  datatype Result<+T> = Ok(value: T) | Err(message: string)
}

/** Failure-compatible wrappers shared by the whole model: `None` stands for a Java `null`. */
module Results {

  datatype Option<+T> = None | Some(value: T)

  /** The outcome of a Java call that either returns a value or throws. */
  datatype Result<+T, +E> = Ok(value: T) | Err(error: E)

  /** The outcome of a Java call that returns nothing useful or throws. */
  datatype Outcome<+E> = Pass | Fail(error: E)
}

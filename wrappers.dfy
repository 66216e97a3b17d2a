/** Option and Result datatypes used for absent values and thrown errors. */
module Wrappers {

  datatype Option<+T> = None | Some(value: T)

  /** The outcome of a computation that may throw; `error` is the exception message. */
  datatype Result<+T> = Ok(value: T) | Err(error: string)

  /** The outcome of a step that only has an effect, or throws. */
  datatype Outcome = Pass | Fail(error: string)
}

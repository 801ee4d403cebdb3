/** Failure-compatible wrappers shared by every module of the model. */
module Wrappers {

  /** An optional value: `None` stands for JavaScript `null`/`undefined` or a missing result. */
  datatype Option<+T> = None | Some(value: T)

  /** A computation that either produces a value or raises an error (an exception in the source). */
  datatype Result<+T> = Ok(value: T) | Err(error: string)
}

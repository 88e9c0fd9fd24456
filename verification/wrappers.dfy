/** Failure-carrying values shared by every module of the model. */
module Wrappers {

  /** An optional value; `None` stands for JavaScript's `NaN`, `null` or `undefined`. */
  datatype Option<+T> = None | Some(value: T)

  /** The outcome of an operation that may throw: `Err` carries the message of the thrown error. */
  datatype Result<+T> = Ok(value: T) | Err(error: string)
}

/** Failure-carrying result types shared by the inventory modules. */
module Wrappers {

  datatype Option<+T> = None | Some(value: T)

  /** A computed value or the reason it could not be computed. */
  datatype Result<+R, +E> = Ok(value: R) | Err(error: E)

  /** Success, or a failure with its reason (no value). */
  datatype Outcome<+E> = Pass | Fail(error: E)
}

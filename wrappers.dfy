/** Failure-carrying wrappers shared by the other modules. */
module Wrappers {

  /** A value that may be absent. In this model `None` stands for a JavaScript
      `undefined` (a column a row does not have) or for `NaN` (a number that
      `parseInt` could not read). */
  datatype Option<+T> = None | Some(value: T)

  /** The outcome of an operation that can throw. */
  datatype Result<+R, +E> = Success(value: R) | Failure(error: E)
}

/** The Option and Result datatypes used for nullable columns and for operations that can fail. */
module Wrappers {

  /** A nullable value: `None` is Ruby's `nil` and SQL's NULL. */
  datatype Option<+T> = None | Some(value: T)

  /** The outcome of an operation that either yields a value or reports errors. */
  datatype Result<+R, +E> = Success(value: R) | Failure(error: E)
}

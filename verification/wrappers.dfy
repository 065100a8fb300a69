/** Option and Result datatypes used to model Python's "maybe absent" values and
    the outcome of calls that may raise. */
module Wrappers {

  datatype Option<+T> = None | Some(value: T)

  /** Success carries the value a call returned; Failure carries the message of
      the exception it raised. */
  datatype Result<+R, +E> = Success(value: R) | Failure(error: E)
}

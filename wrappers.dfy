/// Option and Result, the two failure-carrying shapes the rest of the model returns.
module Wrappers {

  datatype Option<+T> = None | Some(value: T)

  /** A call either returns a value or throws the exception `error`. */
  datatype Result<+T, +E> = Ok(value: T) | Err(error: E)

  /** A call that returns nothing either completes or throws the exception `error`. */
  datatype Outcome<+E> = Pass | Fail(error: E)
}

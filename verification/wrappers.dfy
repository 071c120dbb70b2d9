/** Option and Result, the two failure-carrying datatypes the model uses in place
    of JavaScript's `undefined` results and thrown exceptions. */
module Wrappers {

  datatype Option<+T> = None | Some(value: T)

  datatype Result<+R, +E> = Success(value: R) | Failure(error: E)
}

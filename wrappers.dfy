/** Option and Result, used for pandas' missing values, the adapters' `None`
    sentinel and the exceptions the Python code raises. */
module Wrappers {

  datatype Option<+T> = None | Some(value: T)

  datatype Result<+R, +E> = Success(value: R) | Failure(error: E)
}

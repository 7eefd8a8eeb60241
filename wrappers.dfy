/** Result of an operation that either succeeds with a value or fails with an error
    (stands for the exceptions the Python code raises). */
module Wrappers {

  datatype Result<+T, +E> = Ok(value: T) | Err(error: E)
}

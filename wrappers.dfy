/** Option and Result, the two shapes the Rust code uses for "maybe a value"
    and for "a value, or the reason the call aborted". */
module Wrappers {

  datatype Option<+T> = None | Some(value: T)

  datatype Result<+T, +E> = Success(value: T) | Failure(error: E)
}

/** An optional value and the outcome of an operation that can throw. */
module Wrappers {

  /** `Some(v)` is a present value; `None` is Swift's `nil`. */
  datatype Option<+T> = None | Some(value: T)

  /** The outcome of a throwing Swift initializer: the value, or the error thrown. */
  datatype Result<+R, +E> = Success(value: R) | Failure(error: E)
}

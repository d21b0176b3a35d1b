/** The two sum types the model uses in place of Python's `None` and of a raised exception. */
module Wrappers {

  /** An optional value: `None` stands for Python's `None`. */
  datatype Option<+T> = None | Some(value: T)

  /** The outcome of an operation that either returns a value or raises `error`. */
  datatype Result<+T, +E> = Success(value: T) | Failure(error: E)
}

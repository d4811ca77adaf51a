/** Small failure-carrying datatypes shared by the other modules. */
module Wrappers {

  /** An optional argument: `None` stands for the caller passing Python's `None`. */
  datatype Option<T> = None | Some(value: T)

  /** The outcome of an operation that can raise. */
  datatype Result<T, Err> = Ok(value: T) | Fail(error: Err)
}

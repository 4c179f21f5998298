/** Failure-compatible wrappers shared by the other modules. */
module Wrappers {

  /** An optional value; `None` stands for a pandas NaN / undefined entry. */
  datatype Option<T> = None | Some(value: T)

  /** The outcome of an operation that can raise. */
  datatype Result<T, E> = Ok(value: T) | Err(error: E)
}

/** Java's nullable references and thrown exceptions, made explicit. */
module Wrappers {

  /** A value that may be absent: Java's `null` for a boxed or reference type. */
  datatype Option<+T> = None | Some(value: T)

  /** The outcome of an operation that can throw: the returned value or the exception raised. */
  datatype Result<+T, +E> = Ok(value: T) | Err(error: E)
}

/** Option and Result values for the model's error paths. */
module Wrappers {

  datatype Option<T> = None | Some(value: T)

  /** The outcome of a step that can raise an exception: a value, or the exception raised. */
  datatype Result<T, E> = Ok(value: T) | Err(error: E)
}

// Result and optional values shared by every module of the model.

module Wrappers {

  /** The outcome of an operation that the source can abort with an exception or an error macro. */
  datatype Result<T> = Ok(value: T) | Err(msg: string)

  datatype Option<T> = None | Some(value: T)
}

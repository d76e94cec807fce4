/** Option and Result, the two failure-carrying shapes used across the model:
    `undefined` in the source becomes None, a thrown error becomes Err. */
module Wrappers {

  datatype Option<+T> = None | Some(value: T)

  datatype Result<+T, +E> = Ok(value: T) | Err(error: E)

  /** A JavaScript `Error`: its message and the optional `cause` it carries. */
  datatype Error = Error(message: string, cause: Option<Error>)
}

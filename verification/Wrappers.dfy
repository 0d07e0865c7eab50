/** Result types shared by the modules: a missing value, and a value or an error. */
module Wrappers {

  datatype Option<+T> = None | Some(value: T)

  /** The source's exceptions become the `Err` case. */
  datatype Result<+T> = Ok(value: T) | Err(error: string)
}

/** Result types shared by every module. */
module Wrappers {
  datatype Option<+T> = None | Some(value: T)

  /** The source's thrown errors become `Err` with the stage that raised them. */
  datatype Result<+T, +E> = Ok(value: T) | Err(error: E)
}

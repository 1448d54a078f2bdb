/** Small result types shared by every module. */
module Prelude {

  /** An absent or present field, row or value. */
  datatype Option<+T> = None | Some(value: T)

  /** A returned value or a thrown error. */
  datatype Result<+T, +E> = Ok(value: T) | Err(error: E)
}

/** The two result shapes the other modules share. */
module Common {
  datatype Option<+T> = None | Some(value: T)

  /** `Err` stands for a raised exception; the payload says which one. */
  datatype Result<+T, +E> = Ok(value: T) | Err(error: E)
}

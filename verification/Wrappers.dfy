/** The two result types the models share. */
module Wrappers {
  datatype Option<+T> = None | Some(value: T)

  /** A failed operation; the repository's error codes play no part in what is proved. */
  datatype Result<+T> = Ok(value: T) | Err
}

/** The two wrapper datatypes shared by every module: an optional value (an invalid id, a null
    pointer) and a result that is either a value or the exception the program throws. */
module Wrappers {
  datatype Option<+T> = None | Some(value: T)

  datatype Result<+T, +E> = Ok(value: T) | Err(error: E)
}

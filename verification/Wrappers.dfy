/** The failure types shared by the models: a C++ null pointer, a false return
    value or a thrown exception becomes one of these. */
module Wrappers {
  datatype Option<+T> = None | Some(value: T)

  datatype Result<+T, +E> = Ok(value: T) | Err(error: E)
}

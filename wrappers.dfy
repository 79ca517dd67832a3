// `Option` and `Result` as the source uses them: an absent value, and a
// value or an error message.
module Wrappers {
  datatype Option<T> = None | Some(value: T)

  datatype Result<T> = Ok(value: T) | Err(error: string)
}

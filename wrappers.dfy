/** Option and Result values used in place of JavaScript's null and `{ data } | { error }` objects. */
module Wrappers {

  datatype Option<+T> = None | Some(value: T)

  /** The `{ data: T } | { error: string }` shape the extension returns instead of throwing. */
  datatype Result<+T> = Ok(value: T) | Err(error: string)
}

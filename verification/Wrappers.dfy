/** The result shapes of the modelled Rust code. */
module Wrappers {

  datatype Option<+T> = None | Some(value: T)

  // `Result<T, ()>`: the modelled functions carry no error payload.
  datatype Result<+T> = Ok(value: T) | Err
}

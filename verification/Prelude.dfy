/** Shared result types: the source's exceptions become `Err`, its `None` becomes `None`. */
module Prelude {

  datatype Option<+T> = None | Some(value: T)

  datatype Result<+T, +E> = Ok(value: T) | Err(error: E)
}

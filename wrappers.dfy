/** Option and Result, the shapes of the bot's "maybe a row" and "success or a typed error". */
module Wrappers {

  datatype Option<+T> = None | Some(value: T)

  datatype Result<+R, +E> = Ok(value: R) | Err(error: E)
}

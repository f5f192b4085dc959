/** Option and Result, the two wrappers the model uses for "no match" and for a fatal abort. */
module Wrappers {

  datatype Option<+T> = None | Some(value: T)

  datatype Result<+R, +E> = Ok(value: R) | Err(error: E)
}

/** Option and Result, the two failure-carrying return types the path identifier code uses
    (the path iterator's `Option<u64>` and the parser's `Result<PathIdentifier, ParseIntError>`). */
module Wrappers {

  datatype Option<+T> = None | Some(value: T)

  datatype Result<+T, +E> = Ok(value: T) | Err(error: E)
}

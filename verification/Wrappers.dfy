/** Failure-free optional values, as the client's std::optional and the server's nullable columns. */
module Wrappers {
  datatype Option<+T> = None | Some(value: T)
}

/** The optional value used wherever the source tests a JavaScript value for truthiness. */
module Wrappers {
  datatype Option<+T> = None | Some(value: T)
}

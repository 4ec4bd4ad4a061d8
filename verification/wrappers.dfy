/** The optional value used for the session file and for request fields. */
module Wrappers {
  datatype Option<+T> = None | Some(value: T)
}

/** The optional value used for the session's `user` key. */
module Wrappers {

  datatype Option<T> = None | Some(value: T)
}

/** The optional value used for "no selection" and "no coordinate". */
module Wrappers {
  datatype Option<T> = None | Some(value: T)
}

/** The optional value, for callbacks that may or may not fire and data that may or may not load. */
module Wrappers {
  datatype Option<T> = None | Some(value: T)
}

/** A value that may be missing, as in a NULL pointer or a failed search. */
module Wrappers {
  datatype Option<T> = None | Some(value: T)
}

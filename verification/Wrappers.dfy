/** The optional value used wherever the library returns "nothing" or throws. */
module Wrappers {
  datatype Option<+T> = None | Some(value: T)
}

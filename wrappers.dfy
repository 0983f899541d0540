/** The optional value used where the script reads a property that may be `undefined`. */
module Wrappers {
  datatype Option<+T> = None | Some(value: T)
}

/** The nil-or-value shape the source expresses with nil pointers. */
module Wrappers {
  datatype Option<+T> = None | Some(value: T)
}

/** Small shared datatypes for the tour model. */
module Basics {

  /** A value that may be absent: JavaScript's `null`/`undefined` next to a real value. */
  datatype Option<+T> = None | Some(value: T)
}

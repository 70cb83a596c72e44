/** Small failure-carrying datatypes shared by the other modules. */
module Wrappers {

  /** A value that may be absent (a null pointer, a missing key). */
  datatype Option<+T> = None | Some(value: T)
}

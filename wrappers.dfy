/** Small failure-carrying datatypes shared by the other modules. */
module Wrappers {

  /** A value that may be absent: a missing dictionary key, a call that raised. */
  datatype Option<+T> = None | Some(value: T)
}

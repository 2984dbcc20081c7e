/** The result types the models share. */
module Wrappers {

  /** A pointer that may be NULL, or a call that may fail. */
  datatype Option<+T> = None | Some(value: T)
}

/** Failure-compatible optional value, used where the source throws or finds nothing. */
module Wrappers {

  datatype Option<+T> = None | Some(value: T)
}

/** A value that may be absent: the outcome of a library call that can fail. */
module Wrappers {

  datatype Option<+T> = None | Some(value: T)

}

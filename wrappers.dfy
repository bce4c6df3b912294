/** The optional value used wherever the Go code has a nil-able pointer or a lookup that can fail. */
module Wrappers {

  datatype Option<+T> = None | Some(value: T)
}

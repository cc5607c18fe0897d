/** The optional value used for Go's `error` results (nil or an error message). */
module Wrappers {

  datatype Option<+T> = None | Some(value: T)
}

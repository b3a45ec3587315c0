// The result types the modules share.
module Wrappers {
  datatype Option<+T> = None | Some(value: T)
}

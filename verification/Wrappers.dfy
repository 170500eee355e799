// The datatype shared by the models for a value that may be missing or an operation that throws.
module Wrappers {

  datatype Option<+T> = None | Some(value: T)
}

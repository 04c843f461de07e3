/** The optional-value datatype used by the model for a value that may be missing. */
module Wrappers {
  datatype Option<+T> = None | Some(value: T)
}

/** The optional-value type shared by the wizard modules. */
module Wrappers {
  datatype Option<+T> = None | Some(value: T)
}

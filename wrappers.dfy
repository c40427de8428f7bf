/** The optional-value type used for the dashboard's error paths. */
module Wrappers {
  datatype Option<+T> = None | Some(value: T)
}

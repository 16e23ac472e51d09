/** Option, the model's stand-in for Go's `(value, ok)` pairs and nil values. */
module Wrappers {
  datatype Option<+T> = None | Some(value: T)
}

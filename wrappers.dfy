/** Python's `None`-or-value, as used by every script in the model. */
module Wrappers {

  datatype Option<+T> = None | Some(value: T)
}

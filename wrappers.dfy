/** Python's `None`-or-value, as used for `current_session_id`. */
module Wrappers {
  datatype Option<+T> = None | Some(value: T)
}

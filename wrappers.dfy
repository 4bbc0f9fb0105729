/** An optional value: the persisted text slot may hold nothing. */
module Wrappers {
  datatype Option<+T> = None | Some(value: T)
}

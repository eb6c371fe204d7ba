/** The Some/None datatype used wherever the playground holds a possibly-absent value
    (a tracked element, a selected-element record, a message sent or not). */
module Wrappers {
  datatype Option<+T> = None | Some(value: T)
}

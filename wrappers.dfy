/** The optional value used for the notification message and the persisted record. */
module Wrappers {

  datatype Option<+T> = None | Some(value: T)
}

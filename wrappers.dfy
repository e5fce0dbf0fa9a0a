/** A nullable value: the controller's `T | null` fields and the replies that may be missing. */
module Wrappers {
  datatype Option<T> = None | Some(value: T)
}

/** A value that may be missing, as Python's `None` and SQL's null have it. */
module Wrappers {

  datatype Option<T> = None | Some(value: T)
}

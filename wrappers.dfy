/** An optional value: the model's stand-in for Python's `None` and for
    lookups that may find nothing. */
module Wrappers {

  datatype Option<+T> = None | Some(value: T)
}

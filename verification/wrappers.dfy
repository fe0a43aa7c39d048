/** Option, standing in for Python's `None` and for a call that may fail. */
module Wrappers {

  datatype Option<+T> = None | Some(value: T)

}

/** Option, for the parser's optional fields and the outline builder's
    "last heading seen" slots (Python's `None` versus a record). */
module Wrappers {
  datatype Option<+T> = None | Some(value: T)
}

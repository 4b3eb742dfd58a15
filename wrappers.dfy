/** The optional value of the Python code (`None` or a value). */
module Wrappers {
  datatype Option<+T> = None | Some(value: T)
}

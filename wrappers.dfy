/** The optional value that a Python function returning `None` or a value is modelled with. */
module Wrappers {

  datatype Option<+T> = None | Some(value: T)
}

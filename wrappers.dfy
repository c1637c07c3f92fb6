/** Stock optional-value datatype used for Python's "raises" and "None" results. */
module Wrappers {

  datatype Option<+T> = None | Some(value: T)

}

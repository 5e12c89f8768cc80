/** The optional-value type used for C++ null pointers and absent values. */
module Wrappers {

  datatype Option<+T> = None | Some(value: T)
}

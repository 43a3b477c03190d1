/** The optional value shared by the scanner's modules. */
module Wrappers {
  datatype Option<T> = None | Some(value: T)
}

/** The optional value shared by the models (a null pointer or an absent result). */
module Wrappers {
  datatype Option<T> = None | Some(value: T)
}

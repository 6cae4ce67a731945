// The optional value shared by the scanner and the animation generators.

module Wrappers {

  datatype Option<T> = None | Some(value: T)
}

/** The optional value used where the source has a nullable result or a TryX(out ...) pattern. */
module Wrappers {

  datatype Option<+T> = None | Some(value: T)
}

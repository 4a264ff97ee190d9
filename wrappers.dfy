/** The optional value used wherever the engine returns `Optional<T>` or a nullable reference. */
module Wrappers {

  datatype Option<+T> = None | Some(value: T)

}

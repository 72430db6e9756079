/** A value that may be missing. */
module Prelude {
  datatype Option<+T> = None | Some(value: T)
}

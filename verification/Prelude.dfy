/** The optional value that stands for a Go nil or a missing map entry. */
module Prelude {
  datatype Option<+T> = None | Some(value: T)
}

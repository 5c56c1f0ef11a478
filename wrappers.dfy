/** The optional value that Java expresses with `Optional` or with `null`. */
module Wrappers {
  datatype Option<+T> = None | Some(value: T)
}

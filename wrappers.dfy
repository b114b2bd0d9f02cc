/** The optional value the source writes as None or a value. */
module Wrappers {
  datatype Option<T> = None | Some(value: T)
}

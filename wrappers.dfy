/** The optional value used where the source returns `undefined` or rejects a parse. */
module Wrappers {
  datatype Option<T> = None | Some(value: T)
}

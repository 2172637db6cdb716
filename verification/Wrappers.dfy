/** Option type shared by the parser, the ledger and the session registry. */
module Wrappers {
  datatype Option<T> = None | Some(value: T)
}

/** The usual optional value, used for SQL fetches that may return no row. */
module Wrappers {

  datatype Option<+T> = None | Some(value: T)
}

/** The option type used throughout for nullable columns, fields and results. */
module Wrappers {
  datatype Option<+T> = None | Some(value: T)
}

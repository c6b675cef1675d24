/** A value that may be missing: a pandas cell that a left join left empty. */
module Wrappers {
  datatype Option<T> = None | Some(value: T)
}

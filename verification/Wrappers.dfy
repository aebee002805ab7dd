/** Values that may be missing: a failed allocation, a NULL link. */
module Wrappers {
  datatype Option<T> = None | Some(value: T)
}

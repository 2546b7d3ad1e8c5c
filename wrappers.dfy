/** Option values, for lookups and regular-expression matches that can fail. */
module Wrappers {

  datatype Option<T> = None | Some(value: T)
}

/** Optional values: `None` marks a result the source does not produce (a failed lookup,
    a failed conversion, a computation the source aborts or leaves undefined). */
module Wrappers {
  datatype Option<+T> = None | Some(value: T)
}

/** Optional values: the model's stand-in for a possibly-null owning pointer. */
module Wrappers {

  /** `None` is a null pointer; `Some(value)` an owned object. */
  datatype Option<+T> = None | Some(value: T)
}

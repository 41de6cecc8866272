/** Optional values, used where the modelled Python code can raise instead of returning. */
module Wrappers {
  datatype Option<+T> = None | Some(value: T)
}

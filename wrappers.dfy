/** Optional values, used wherever a Python conversion can raise `ValueError`
    or a lookup can miss. */
module Wrappers {
  datatype Option<+T> = None | Some(value: T)
}

/** Optional values, used where the source has a null pointer, a failed
    conversion or a missing return value. */
module Wrappers {

  datatype Option<+T> = None | Some(value: T)
}

/** Optional values: the validator's `string | null` result. */
module Wrappers {

  datatype Option<+T> = None | Some(value: T)
}

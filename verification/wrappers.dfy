/** Optional values, for fields a message may or may not carry. */
module Wrappers {

  datatype Option<+T> = None | Some(value: T)
}

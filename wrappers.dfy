/** Optional values, used for JavaScript's `undefined`/`null` and for partial decoders. */
module Wrappers {
  datatype Option<+T> = None | Some(value: T)
}

/** Optional values, used for the nullable `prev`/`next` node links. */
module Wrappers {
  datatype Option<+T> = None | Some(value: T)
}

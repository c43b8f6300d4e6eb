/** Optional values: a group id the host may not supply, a reply a handler may not send. */
module Wrappers {
  datatype Option<+T> = None | Some(value: T)
}

/** Optional values: an absent block index, an absent time line, a dropped
    block, or a call to the translation service that raised. */
module Wrappers {

  datatype Option<+T> = None | Some(value: T)
}

/** Optional values: a claim, a document field or a parsed request field
    that may be missing. */
module Wrappers {

  datatype Option<+T> = None | Some(value: T)
}

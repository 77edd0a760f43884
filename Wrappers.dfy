/** Optional values: Java's nullable references (an absent attribute list, a
    resolver that is not configured, a schema location that is not known). */
module Wrappers {

  datatype Option<+T> = None | Some(value: T)
}

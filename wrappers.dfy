/** Optional values, for Java's null references and thrown exceptions. */
module Wrappers {
  datatype Option<+T> = None | Some(value: T)
}

/** The JavaScript `undefined` that the hash table and the lookups return for a missing key. */
module Wrappers {
  datatype Option<+T> = None | Some(value: T)
}

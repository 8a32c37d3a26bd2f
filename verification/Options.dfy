/** Optional values: what the source writes as a nil pointer or an empty key. */
module Options {
  datatype Option<+T> = None | Some(value: T)
}

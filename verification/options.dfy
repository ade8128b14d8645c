/** Optional values: the result of a catalog lookup, or of a risk analysis that may not apply. */
module Options {

  datatype Option<+T> = None | Some(value: T)
}

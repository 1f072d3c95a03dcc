/** Optional values: a JavaScript `null`/`undefined` or a Kotlin nullable. */
module Options {
  datatype Option<+T> = None | Some(value: T)
}

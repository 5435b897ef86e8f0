/** Optional values: the model's counterpart of Kotlin's nullable types (`String?`, `Double?`). */
module Options {

  datatype Option<+T> = None | Some(value: T)
}

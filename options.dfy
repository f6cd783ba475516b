/** A value that may be absent: Kotlin's nullable types (`String?`, `Task?`). */
module Options {

  datatype Option<+T> = None | Some(value: T)
}

/** The `undefined` / `null` of the original code: a value that may be absent. */
module Optional {
  datatype Option<+T> = None | Some(value: T)
}

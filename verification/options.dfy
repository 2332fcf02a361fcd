/** Values that may be absent: error returns whose error is not looked at, and optional fields. */
module Options {

  datatype Option<T> = None | Some(value: T)
}

/** An optional value: `null`/`undefined` in the application becomes `None`. */
module Options {

  datatype Option<+T> = None | Some(value: T)
}

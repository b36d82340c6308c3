/** An optional value: a failed call or a JavaScript `null` is `None`. */
module Options {
  datatype Option<+T> = None | Some(value: T)
}

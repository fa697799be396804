/** A value that may be absent: a JavaScript field that is `undefined` or `null`. */
module Optional {

  datatype Option<+T> = None | Some(value: T)
}

/** An optional value: a session field that may not have been set yet. */
module Optional {

  datatype Option<+T> = None | Some(value: T)
}

/** The optional value used wherever Python returns None or raises instead of returning. */
module Options {
  datatype Option<+T> = None | Some(value: T)
}

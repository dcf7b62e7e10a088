/** A value or none, for the optional values of every component. */
module Options {

  datatype Option<+T> = None | Some(value: T)
}

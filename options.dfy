/** The optional value that the intersection routines return. */
module Options {

  datatype Option<+T> = None | Some(value: T)
}

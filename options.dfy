/** The optional value used where the source has a Swift optional. */
module Options {

  datatype Option<+T> = None | Some(value: T)
}

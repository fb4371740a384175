/** The optional value used wherever the source has `None`. */
module Options {

  datatype Option<+T> = None | Some(value: T)
}

/** The optional values shared by every module of the model. */
module Options {
  datatype Option<+T> = None | Some(value: T)
}

/** The usual optional value: None stands for the C code's NULL. */
module Options {
  datatype Option<+T> = None | Some(value: T)
}

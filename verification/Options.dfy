/** Stock datatypes shared by the other modules. */
module Options {
  datatype Option<+T> = None | Some(value: T)
}

/** The Some/None type that stands for the source's null pointers and `npos`. */
module Options {
  datatype Option<+T> = None | Some(value: T)
}

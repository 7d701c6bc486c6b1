module Options {
  datatype Maybe<+T> = None | Some(value: T)
}

/** The usual Some/None wrapper, for values the source may hold as `None`. */
module Optional {
  datatype Option<+T> = None | Some(value: T)
}

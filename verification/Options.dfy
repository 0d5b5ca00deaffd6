/** An optional value: a C pointer or status that may say "nothing". */
module Options {
  datatype Option<+T> = None | Some(value: T)
}

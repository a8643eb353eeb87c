/** The optional value returned by the parsers of the report format. */
module Options {
  datatype Option<+T> = None | Some(value: T)
}

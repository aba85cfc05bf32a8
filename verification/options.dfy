/** The optional value the pages keep where the source uses `null` or an empty field. */
module Options {

  datatype Option<+T> = None | Some(value: T)
}

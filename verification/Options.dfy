/** A value or none, as the program's comma-ok lookups and optional fields give it. */
module Options {
  datatype Option<+T> = None | Some(value: T)
}

/** A value that may be missing, as the program's null pointers and failed reads */
module Options {

  datatype Option<+T> = None | Some(value: T)
}

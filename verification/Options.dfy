/** A value that may be missing; None also stands for a source exception that is caught. */
module Options {
  datatype Option<+T> = None | Some(value: T)
}

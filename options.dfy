/** The optional value used wherever the source may or may not produce something. */
module Options {

  datatype Option<T> = None | Some(value: T)
}

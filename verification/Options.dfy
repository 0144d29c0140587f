/** Values that may be absent, such as the source's null pointers. */
module Options {

  datatype Option<T> = None | Some(value: T)
}

/** The optional value used wherever PHP passes a nullable argument or `isset` is tested. */
module Options {
  datatype Option<T> = None | Some(value: T)
}

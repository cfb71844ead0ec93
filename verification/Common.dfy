/** The optional value used wherever the service stores a nullable column or returns an optional. */
module Common {
  datatype Option<+T> = None | Some(value: T)
}

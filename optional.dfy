/** An optional value: a buffer a call may or may not have produced, a query parameter that may be absent. */
module Optional {
  datatype Option<T> = None | Some(value: T)
}

// An optional value: a texture pointer that may be NULL, a palette lookup
// that may find nothing.

module Options {
  datatype Option<T> = None | Some(value: T)
}

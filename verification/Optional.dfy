/** A value that may be missing: a nil pointer, or an answer that carries nothing. */
module Optional {

  datatype Option<+T> = None | Some(value: T)
}

/** The usual optional value, standing for a C result that may be NULL or
    for an output that is written only on success. */
module Optional {
  datatype Option<T> = None | Some(value: T)
}

/** A value that may be missing: what a decoder returns for a reply it cannot read. */
module Optional {

  datatype Option<T> = None | Some(value: T)
}

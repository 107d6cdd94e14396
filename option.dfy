// An optional value: a rate table that may not have been loaded yet, or a
// conversion that may not have produced a result.

module Optional {

  datatype Option<T> = None | Some(value: T)
}

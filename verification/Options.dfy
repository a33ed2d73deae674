module Options {

  datatype Option<+T> = None | Some(value: T)

  /** The sequence of zero or one elements that an option stands for. */
  function Optional<T>(o: Option<T>): seq<T> {
    if o.Some? then [o.value] else []
  }
}

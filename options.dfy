/** The optional value used for Python's `Optional[...]` fields and for conversions that may fail. */
module Options {

  datatype Option<+T> = None | Some(value: T)

  /** The value held, as a sequence of zero or one elements. */
  function Elements<T>(o: Option<T>): seq<T> {
    if o.Some? then [o.value] else []
  }
}

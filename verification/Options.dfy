/** Shared helpers: an optional value, as Python's `None` or a value, and picking from a set. */
module Options {
  datatype Option<+T> = None | Some(value: T)

  /** Some element of a nonempty set; iteration orders are not modelled. */
  method Pick<T>(s: set<T>) returns (x: T)
    requires s != {}
    ensures x in s
  {
    x :| x in s;
  }
}

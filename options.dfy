/** Rust's `Option`, with the `unwrap_or` the source uses. */
module Options {

  datatype Option<T> = None | Some(value: T) {

    /** `unwrap_or(d)`: the carried value, or `d` when there is none. */
    function UnwrapOr(d: T): (r: T)
      ensures Some? ==> r == value
      ensures None? ==> r == d
    {
      match this
      case Some(v) => v
      case None => d
    }
  }
}

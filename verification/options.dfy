/** The conventional optional value: Python's `None` or a present value. */
module Options {

  datatype Option<T> = None | Some(value: T) {

    /** The present value, or `default` when there is none. */
    function GetOr(default: T): (r: T)
      ensures Some? ==> r == value
      ensures None? ==> r == default
    {
      match this
      case Some(v) => v
      case None => default
    }
  }
}

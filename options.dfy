/** An optional argument: `None` stands for an argument the caller left out
    (JavaScript's `undefined`). */
module Options {

  datatype Option<+T> = None | Some(value: T) {

    /** The argument, or `default` when it was left out. */
    function GetOr(default: T): (r: T)
      ensures Some? ==> r == value
      ensures None? ==> r == default
    {
      match this
      case Some(v) => v
      case None => default
    }
  }
}

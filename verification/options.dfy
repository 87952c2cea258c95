/** A value that may be absent: the model of an optional (`?`) property of a
    TypeScript object, which is either `undefined` or holds a value. */
module Options {

  datatype Option<+T> = None | Some(value: T) {

    /** The held value, or `default` when absent (TypeScript's `value ?? default`). */
    function GetOr(default: T): (r: T)
      ensures Some? ==> r == value
      ensures None? ==> r == default
    {
      match this
      case Some(v) => v
      case None => default
    }
  }
}

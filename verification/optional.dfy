/** A value that may be absent: a skipped pooling tap, a null pointer, an
    unset attribute. */
module Optional {

  datatype Option<T> = None | Some(value: T)
  {
    /** The value, or `default` when there is none. */
    function GetOr(default: T): (r: T)
      ensures Some? ==> r == value
      ensures None? ==> r == default
    {
      match this
      case None => default
      case Some(v) => v
    }
  }
}

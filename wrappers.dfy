/** The optional value used for every decode result: `None` is the single
    structural-mismatch failure, `Some` a successfully decoded value. */
module Wrappers {

  datatype Option<+T> = None | Some(value: T) {

    /** Applies `f` to the held value; a failure stays a failure. */
    function Map<U>(f: T -> U): (r: Option<U>)
      ensures r.Some? <==> Some?
      ensures r.Some? ==> r.value == f(value)
    {
      match this
      case None => None
      case Some(v) => Some(f(v))
    }
  }
}

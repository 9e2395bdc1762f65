/** A value that may be absent: a JavaScript property or argument that is `undefined`/`null`,
    a Python argument that is `None`. */
module Wrappers {

  datatype Option<T> = None | Some(value: T)

  /** `x || fallback` on a value that is either absent or of the expected type. */
  function OrElse<T>(o: Option<T>, fallback: T): (r: T)
    ensures o.Some? ==> r == o.value
    ensures o.None? ==> r == fallback
  {
    match o
    case Some(v) => v
    case None => fallback
  }
}

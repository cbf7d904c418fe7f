/** The success-or-absence type used for every call that may fail: Python's
    `None` return and a swallowed exception both become `None` here. */
module Wrappers {

  datatype Option<+T> = None | Some(value: T)

  /** The elements an optional value contributes to a list: none or one. */
  function AsSeq<T>(o: Option<T>): (s: seq<T>)
    ensures |s| <= 1
    ensures s == [] <==> o.None?
    ensures o.Some? ==> s == [o.value]
  {
    match o
    case None => []
    case Some(x) => [x]
  }
}

/** Optional values, standing for JavaScript's `null` / `undefined`. */
module Wrappers {

  datatype Option<+T> = None | Some(value: T)

  /** `[x]` for `Some(x)` and `[]` for `None`, in the style of `filter(Boolean)` on one entry. */
  function ToSeq<T>(o: Option<T>): (r: seq<T>)
    ensures |r| <= 1
    ensures r == [] <==> o.None?
    ensures o.Some? ==> r[0] == o.value
  {
    match o
    case None => []
    case Some(x) => [x]
  }
}

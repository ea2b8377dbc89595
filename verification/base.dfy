/** Values shared by every part of the booking service model: optional values,
    HTTP errors, Python truthiness of optional strings, and the "first matching
    document" lookup that the document store's `find_one`/`update_one` perform. */
module Base {

  /** A value that may be missing: Python's `None`, an absent dictionary key. */
  datatype Option<+T> = None | Some(value: T)

  /** An `HTTPException` as the web framework reports it: status code and detail. */
  datatype HttpError = HttpError(status: int, detail: string)

  /** A value or the HTTP error raised instead of it. */
  datatype Result<+T> = Ok(value: T) | Err(error: HttpError)

  /** Python's `d.get(k)`: the value stored under `k`, or None. */
  function Get<K, V>(m: map<K, V>, k: K): Option<V>
  {
    if k in m then Some(m[k]) else None
  }

  /** Python truthiness of a string-or-None: None and `""` are falsy. */
  predicate Truthy(o: Option<string>)
  {
    o.Some? && o.value != ""
  }

  /** Python's `a or b` on strings-or-None: `a` if it is truthy, else `b` as it is. */
  function Or(a: Option<string>, b: Option<string>): Option<string>
  {
    if Truthy(a) then a else b
  }

  /** The position of the first element satisfying `p`: how a document store
      picks the document that `find_one` returns and `update_one` changes,
      in the collection's natural order. */
  function FirstIndex<T>(s: seq<T>, p: T -> bool): (r: Option<nat>)
    ensures r.Some? ==> r.value < |s| && p(s[r.value])
    ensures r.Some? ==> forall k :: 0 <= k < r.value ==> !p(s[k])
    ensures r.None? ==> forall k :: 0 <= k < |s| ==> !p(s[k])
    decreases |s|
  {
    if |s| == 0 then None
    else if p(s[0]) then Some(0)
    else match FirstIndex(s[1..], p)
      case None => None
      case Some(k) => Some(k + 1)
  }
}

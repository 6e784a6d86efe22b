/** Option and Result: Go's nil-able values and (value, error) returns. */
module Wrappers {

  /** `None` plays the role of Go's `nil`. */
  datatype Option<+T> = None | Some(value: T)

  /** A Go call returning `(value, error)`: `Ok` when the error is nil. */
  datatype Result<+T, +E> = Ok(value: T) | Err(error: E)

  /** A finite sequence that lists every element of `s` exactly once (Go's map iteration order is unspecified). */
  ghost predicate Enumerates<K>(ks: seq<K>, s: set<K>)
  {
    && (forall i, j :: 0 <= i < j < |ks| ==> ks[i] != ks[j])
    && (forall k :: k in s ==> k in ks)
    && (forall i :: 0 <= i < |ks| ==> ks[i] in s)
  }
}

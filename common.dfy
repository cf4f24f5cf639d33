/** Shared wrappers: optional values, handler results and the HTTP failures the controllers answer with. */
module Common {

  datatype Option<+T> = None | Some(value: T) {
    /** The value, or `default` when there is none. */
    function GetOr(default: T): T {
      match this
      case Some(v) => v
      case None => default
    }
  }

  /** The error responses the controllers send; the catch-all 500 branch is `ServerError`. */
  datatype Failure =
    | BadRequest   // 400: missing or malformed input
    | NotFound     // 404
    | Conflict     // 409: duplicate slug
    | ServerError  // 500: a thrown TypeError, a store cast error or a rejected pipeline

  datatype Result<+T> = Ok(value: T) | Err(failure: Failure)

  /** A collection without its `k`-th record, the others in their order. */
  function RemoveAt<T>(docs: seq<T>, k: nat): (r: seq<T>)
    requires k < |docs|
    ensures |r| == |docs| - 1
  {
    docs[..k] + docs[k + 1..]
  }

  /** Where each remaining record sat before the removal. */
  lemma RemoveAtIndices<T>(docs: seq<T>, k: nat)
    requires k < |docs|
    ensures forall j :: 0 <= j < k ==> RemoveAt(docs, k)[j] == docs[j]
    ensures forall j :: k <= j < |docs| - 1 ==> RemoveAt(docs, k)[j] == docs[j + 1]
  {
  }
}

/** Values shared by the presence registry and the chat store. */
module Wrappers {

  /** A value that may be missing: JavaScript's `undefined` or `null`. */
  datatype Option<+T> = None | Some(value: T)

  /** What an awaited HTTP request settles to: the response body, or a thrown error. */
  datatype Response<+T> = Success(data: T) | Failure

  /** A user's id, the key of both the server's registry and the client's counters. */
  type UserId = string
}

/** Searching sequences. */
module Seqs {
  import opened Wrappers

  /** The index of the first element that satisfies `p`, as `Array.prototype.findIndex`
      computes it; `None` stands for its -1. */
  function FirstIndex<T>(s: seq<T>, p: T -> bool): (r: Option<nat>)
    ensures r.Some? ==> r.value < |s| && p(s[r.value])
    ensures r.Some? ==> forall j :: 0 <= j < r.value ==> !p(s[j])
    ensures r.None? ==> forall j :: 0 <= j < |s| ==> !p(s[j])
  {
    if |s| == 0 then None
    else if p(s[0]) then Some(0)
    else match FirstIndex(s[1..], p)
      case None => None
      case Some(i) => Some(i + 1)
  }
}

/** Optional values and results, standing in for JavaScript's `null` /
    `undefined` and for rejected promises. */
module Wrappers {

  /** A value that may be absent (`null` or `undefined` in the source). */
  datatype Option<+T> = None | Some(value: T) {

    /** The value, or `default` when absent (the `??` operator). */
    function GetOr(default: T): T {
      match this
      case Some(v) => v
      case None => default
    }
  }

  /** The outcome of an operation that can fail with an error of type `E`. */
  datatype Result<+R, +E> = Ok(value: R) | Err(error: E)

  /** The values of a sequence of optional values, when every one is
      present: a `map` that reads a field of each element throws at the
      first absent one, and then yields nothing. */
  function AllPresent<T>(s: seq<Option<T>>): (r: Option<seq<T>>)
    ensures r.Some? <==> forall i | 0 <= i < |s| :: s[i].Some?
    ensures r.Some? ==> |r.value| == |s| && forall i | 0 <= i < |s| :: r.value[i] == s[i].value
  {
    if s == [] then Some([])
    else if s[0].None? then None
    else
      match AllPresent(s[1..])
      case None => None
      case Some(t) => Some([s[0].value] + t)
  }

  /** Collecting the wrapped values gives the values back. */
  lemma AllPresentOfValues<T>(s: seq<Option<T>>, vs: seq<T>)
    requires |s| == |vs| && forall i | 0 <= i < |s| :: s[i] == Some(vs[i])
    ensures AllPresent(s) == Some(vs)
  {
    assert forall i | 0 <= i < |s| :: s[i].Some?;
    assert AllPresent(s).Some?;
    var r := AllPresent(s).value;
    assert |r| == |vs|;
    assert forall i | 0 <= i < |vs| :: r[i] == vs[i];
    assert r == vs;
  }
}

/** Absent values and errors, shared by every component. */
module Wrappers {

  datatype Option<+T> = None | Some(value: T)

  datatype Result<+T, +E> = Ok(value: T) | Err(error: E)

  /** items.map(f), stopping at the first error. */
  function MapAll<A, B, E>(items: seq<A>, f: A -> Result<B, E>): (r: Result<seq<B>, E>)
    ensures r.Ok? ==> |r.value| == |items| && forall k :: 0 <= k < |items| ==> f(items[k]) == Ok(r.value[k])
    ensures r.Err? ==> exists k :: 0 <= k < |items| && f(items[k]) == Err(r.error)
  {
    if items == [] then Ok([])
    else
      match f(items[0])
      case Err(e) => Err(e)
      case Ok(first) =>
        match MapAll(items[1..], f)
        case Err(e) =>
          assert exists k :: 0 <= k < |items[1..]| && f(items[1..][k]) == Err(e);
          assert forall k :: 0 <= k < |items[1..]| ==> items[1..][k] == items[k + 1];
          Err(e)
        case Ok(rest) => Ok([first] + rest)
  }
}

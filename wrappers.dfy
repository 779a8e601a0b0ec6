/** Optional values and results with an error, and the all-or-first-error traversal of a list. */
module Wrappers {
  datatype Option<+T> = None | Some(value: T)

  datatype Result<+T, +E> = Ok(value: T) | Err(error: E)

  /**
    Applies `f` to every item in order: all results when every application
    succeeds, otherwise the error of the first application that fails.
   */
  function Traverse<A, B, E(==)>(f: A -> Result<B, E>, items: seq<A>): (r: Result<seq<B>, E>)
    ensures r.Ok? <==> forall i :: 0 <= i < |items| ==> f(items[i]).Ok?
    ensures r.Ok? ==> |r.value| == |items| && forall i :: 0 <= i < |items| ==> r.value[i] == f(items[i]).value
    ensures r.Err? ==> exists i :: 0 <= i < |items| && f(items[i]).Err? && f(items[i]).error == r.error
                                   && forall k :: 0 <= k < i ==> f(items[k]).Ok?
  {
    if items == [] then Ok([])
    else
      match f(items[0])
      case Err(e) =>
        assert f(items[0]).Err? && f(items[0]).error == e;
        Err(e)
      case Ok(b) =>
        match Traverse(f, items[1..])
        case Err(e) =>
          var i :| 0 <= i < |items[1..]| && f(items[1..][i]).Err? && f(items[1..][i]).error == e
                   && forall k :: 0 <= k < i ==> f(items[1..][k]).Ok?;
          assert items[i + 1] == items[1..][i];
          assert forall k :: 0 <= k < i + 1 ==> f(items[k]).Ok? by {
            forall k | 0 <= k < i + 1 ensures f(items[k]).Ok? {
              if k > 0 { assert items[k] == items[1..][k - 1]; }
            }
          }
          Err(e)
        case Ok(rest) =>
          assert forall i :: 1 <= i < |items| ==> items[i] == items[1..][i - 1];
          Ok([b] + rest)
  }
}

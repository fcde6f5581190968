/** Optional values, success/failure results and mapping a fallible call over a list, used wherever the modelled
    Python code returns `None` or raises an exception. */
module Results {

  /** A value that may be missing (Python's `None`). */
  datatype Option<+T> = None | Some(value: T)

  /** Either a computed value or the error the Python code would raise. */
  datatype Result<+T, +E> = Success(value: T) | Failure(error: E)

  /** `[f(x) for x in xs]` where `f` may raise: every result when all calls
      succeed, otherwise the error of the first call that fails. */
  function MapAll<A, B, E>(f: A -> Result<B, E>, xs: seq<A>): (r: Result<seq<B>, E>)
    ensures r.Success? <==> forall i :: 0 <= i < |xs| ==> f(xs[i]).Success?
    ensures r.Success? ==> |r.value| == |xs|
                           && forall i :: 0 <= i < |xs| ==> f(xs[i]) == Success(r.value[i])
    ensures r.Failure? ==> exists i :: 0 <= i < |xs| && f(xs[i]) == Failure(r.error)
                                       && forall j :: 0 <= j < i ==> f(xs[j]).Success?
    decreases |xs|
  {
    if |xs| == 0 then Success([])
    else
      var rest := xs[1..];
      assert forall i :: 1 <= i < |xs| ==> xs[i] == rest[i - 1];
      match f(xs[0])
      case Failure(e) => Failure(e)
      case Success(y) =>
        match MapAll(f, rest)
        case Failure(e) =>
          assert exists i :: 0 <= i < |xs| && f(xs[i]) == Failure(e)
                             && forall j :: 0 <= j < i ==> f(xs[j]).Success? by {
            var k :| 0 <= k < |rest| && f(rest[k]) == Failure(e)
                     && forall j :: 0 <= j < k ==> f(rest[j]).Success?;
            assert f(xs[k + 1]) == Failure(e);
            assert forall j :: 0 <= j < k + 1 ==> f(xs[j]).Success?;
          }
          Failure(e)
        case Success(ys) =>
          assert forall i :: 1 <= i < |xs| ==> f(xs[i]) == Success(([y] + ys)[i]) by {
            forall i | 1 <= i < |xs| ensures f(xs[i]) == Success(([y] + ys)[i]) {
              assert ([y] + ys)[i] == ys[i - 1];
            }
          }
          Success([y] + ys)
  }
}

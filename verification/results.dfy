/** Option and Result, the two failure-carrying shapes the dashboard's
    operations return in place of `null` and thrown errors. */
module Results {

  /** A value that may be missing (`null` / `undefined` in the dashboard). */
  datatype Option<+T> = None | Some(value: T) {
    function GetOr(default: T): T {
      match this
      case Some(v) => v
      case None => default
    }
  }

  /** The outcome of an operation that either yields a value or fails with
      an error (a thrown `Error` in the dashboard). */
  datatype Result<+T, +E> = Ok(value: T) | Err(error: E)

  /** Entry `k` is the first failure in `outcomes`. */
  predicate FirstErrAt<T, E>(outcomes: seq<Result<T, E>>, k: int) {
    0 <= k < |outcomes| && outcomes[k].Err?
    && forall j :: 0 <= j < k ==> outcomes[j].Ok?
  }

  /** Steps run one after another until one fails: all their values, in
      order, or the first failure. */
  function Gather<T, E(==)>(outcomes: seq<Result<T, E>>): (r: Result<seq<T>, E>)
    ensures r.Ok? ==>
      && |r.value| == |outcomes|
      && forall k :: 0 <= k < |outcomes| ==> outcomes[k] == Ok(r.value[k])
    ensures r.Err? ==> exists k :: FirstErrAt(outcomes, k) && outcomes[k].error == r.error
    decreases |outcomes|
  {
    if |outcomes| == 0 then Ok([])
    else if outcomes[0].Err? then
      assert FirstErrAt(outcomes, 0);
      Err(outcomes[0].error)
    else
      var rest := Gather(outcomes[1..]);
      if rest.Err? then
        var k :| FirstErrAt(outcomes[1..], k) && outcomes[1..][k].error == rest.error;
        assert FirstErrAt(outcomes, k + 1);
        Err(rest.error)
      else
        Ok([outcomes[0].value] + rest.value)
  }
}

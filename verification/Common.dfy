/** Options, results and the two short-circuiting folds that both engines use. */
module Common {

  datatype Option<+T> = None | Some(value: T)

  /** A failure-compatible result: `:-` returns the first error it meets. */
  datatype Result<+T, +E> = Ok(value: T) | Err(error: E) {
    predicate IsFailure() { Err? }

    function PropagateFailure<U>(): Result<U, E>
      requires Err?
    {
      Err(error)
    }

    function Extract(): T
      requires Ok?
    {
      value
    }
  }

  /** What a loop that stops at the first `true` or the first error returns. */
  function AnyOf<E(==)>(rs: seq<Result<bool, E>>): (r: Result<bool, E>)
    ensures r == Ok(false) <==> forall i | 0 <= i < |rs| :: rs[i] == Ok(false)
    ensures r != Ok(false) ==>
              exists k | 0 <= k < |rs| :: rs[k] == r && forall i | 0 <= i < k :: rs[i] == Ok(false)
  {
    if rs == [] then Ok(false)
    else if rs[0] == Ok(false) then
      var rest := AnyOf(rs[1..]);
      assert rest != Ok(false) ==>
          exists k | 1 <= k < |rs| :: rs[k] == rest && forall i | 0 <= i < k :: rs[i] == Ok(false) by {
        if rest != Ok(false) {
          var k :| 0 <= k < |rs[1..]| && rs[1..][k] == rest && forall i | 0 <= i < k :: rs[1..][i] == Ok(false);
          assert rs[k + 1] == rest;
          forall i | 0 <= i < k + 1 ensures rs[i] == Ok(false) {
            if i > 0 { assert rs[1..][i - 1] == Ok(false); }
          }
        }
      }
      assert rest == Ok(false) ==> forall i | 1 <= i < |rs| :: rs[i] == Ok(false) by {
        if rest == Ok(false) {
          forall i | 1 <= i < |rs| ensures rs[i] == Ok(false) { assert rs[i] == rs[1..][i - 1]; }
        }
      }
      rest
    else
      rs[0]
  }

  /** What a loop that stops at the first `false` or the first error returns. */
  function AllOf<E(==)>(rs: seq<Result<bool, E>>): (r: Result<bool, E>)
    ensures r == Ok(true) <==> forall i | 0 <= i < |rs| :: rs[i] == Ok(true)
    ensures r != Ok(true) ==>
              exists k | 0 <= k < |rs| :: rs[k] == r && forall i | 0 <= i < k :: rs[i] == Ok(true)
  {
    if rs == [] then Ok(true)
    else if rs[0] == Ok(true) then
      var rest := AllOf(rs[1..]);
      assert rest != Ok(true) ==>
          exists k | 1 <= k < |rs| :: rs[k] == rest && forall i | 0 <= i < k :: rs[i] == Ok(true) by {
        if rest != Ok(true) {
          var k :| 0 <= k < |rs[1..]| && rs[1..][k] == rest && forall i | 0 <= i < k :: rs[1..][i] == Ok(true);
          assert rs[k + 1] == rest;
          forall i | 0 <= i < k + 1 ensures rs[i] == Ok(true) {
            if i > 0 { assert rs[1..][i - 1] == Ok(true); }
          }
        }
      }
      assert rest == Ok(true) ==> forall i | 1 <= i < |rs| :: rs[i] == Ok(true) by {
        if rest == Ok(true) {
          forall i | 1 <= i < |rs| ensures rs[i] == Ok(true) { assert rs[i] == rs[1..][i - 1]; }
        }
      }
      rest
    else
      rs[0]
  }

  /** A loop that pushes every value and stops at the first error. */
  function Collect<T, E>(rs: seq<Result<T, E>>): (r: Result<seq<T>, E>)
    ensures r.Ok? <==> forall i | 0 <= i < |rs| :: rs[i].Ok?
    ensures r.Ok? ==> |r.value| == |rs| && forall i | 0 <= i < |rs| :: rs[i] == Ok(r.value[i])
    ensures r.Err? ==>
              exists k | 0 <= k < |rs| :: rs[k].Err? && rs[k].error == r.error && forall i | 0 <= i < k :: rs[i].Ok?
  {
    if rs == [] then Ok([])
    else
      var n := |rs| - 1;
      assert forall i | 0 <= i < n :: rs[i] == rs[..n][i];
      match Collect(rs[..n])
      case Err(e) =>
        assert exists k | 0 <= k < |rs| :: rs[k].Err? && rs[k].error == e && forall i | 0 <= i < k :: rs[i].Ok? by {
          var k :| 0 <= k < n && rs[..n][k].Err? && rs[..n][k].error == e && forall i | 0 <= i < k :: rs[..n][i].Ok?;
          assert rs[k].Err?;
        }
        Err(e)
      case Ok(values) =>
        match rs[n]
        case Err(e) => Err(e)
        case Ok(v) => Ok(values + [v])
  }

  /** The loop may stop at position `k`: later outcomes cannot change the result. */
  lemma AnyOfStopsAt<E>(rs: seq<Result<bool, E>>, k: nat)
    requires k < |rs| && rs[k] != Ok(false) && forall i | 0 <= i < k :: rs[i] == Ok(false)
    ensures AnyOf(rs) == rs[k]
  {
    var j :| 0 <= j < |rs| && rs[j] == AnyOf(rs) && forall i | 0 <= i < j :: rs[i] == Ok(false);
  }

  lemma AllOfStopsAt<E>(rs: seq<Result<bool, E>>, k: nat)
    requires k < |rs| && rs[k] != Ok(true) && forall i | 0 <= i < k :: rs[i] == Ok(true)
    ensures AllOf(rs) == rs[k]
  {
    var j :| 0 <= j < |rs| && rs[j] == AllOf(rs) && forall i | 0 <= i < j :: rs[i] == Ok(true);
  }

  lemma CollectStopsAt<T, E>(rs: seq<Result<T, E>>, k: nat)
    requires k < |rs| && rs[k].Err? && forall i | 0 <= i < k :: rs[i].Ok?
    ensures Collect(rs) == Err(rs[k].error)
  {
    var j :| 0 <= j < |rs| && rs[j].Err? && rs[j].error == Collect(rs).error && forall i | 0 <= i < j :: rs[i].Ok?;
  }
}

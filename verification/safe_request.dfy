/**
 * The bounded retry wrapper `safe_post` / `safe_get`. Both run the same loop:
 * up to `retries` attempts, return the first parsed response, and return None
 * once every attempt has raised. The transport itself is not modelled: the
 * outcome of the i-th attempt is `outcomes[i]` (None for an attempt that raised),
 * and an attempt past the end of `outcomes` raises.
 */
module SafeRequest {
  import opened Wrappers
  import opened JsonValue

  /** Default `retries` argument of both wrappers; every caller in the crawler uses it. */
  const DefaultRetries: int := 3

  /** What the i-th attempt yields. */
  function Outcome(outcomes: seq<Option<Json>>, i: nat): Option<Json>
  {
    if i < |outcomes| then outcomes[i] else None
  }

  /** Number of attempts `range(retries)` allows. */
  function Budget(retries: int): nat
  {
    if retries < 0 then 0 else retries
  }

  /** Result of the attempts `from`, `from + 1`, ... below `retries`: the first success, else None. */
  function FirstSuccess(outcomes: seq<Option<Json>>, from: nat, retries: int): Option<Json>
    decreases retries - from
  {
    if from >= retries then None
    else if Outcome(outcomes, from).Some? then Outcome(outcomes, from)
    else FirstSuccess(outcomes, from + 1, retries)
  }

  /**
   * One call of `safe_post` / `safe_get` with the given retry budget.
   * `attempts` is the number of requests the call issued.
   */
  method Attempt(outcomes: seq<Option<Json>>, retries: int) returns (r: Option<Json>, attempts: nat)
    ensures r == FirstSuccess(outcomes, 0, retries)
    ensures attempts <= Budget(retries)
    ensures r.Some? ==> 1 <= attempts && r == Outcome(outcomes, attempts - 1)
    ensures r.None? ==> attempts == Budget(retries)
    ensures forall j :: 0 <= j < attempts && (r.None? || j < attempts - 1) ==> Outcome(outcomes, j).None?
  {
    var i: nat := 0;
    while i < retries
      invariant i <= Budget(retries)
      invariant forall j :: 0 <= j < i ==> Outcome(outcomes, j).None?
      invariant FirstSuccess(outcomes, i, retries) == FirstSuccess(outcomes, 0, retries)
    {
      var o := Outcome(outcomes, i);
      if o.Some? {
        return o, i + 1;
      }
      i := i + 1;
    }
    return None, i;
  }

  /** The success returned is one of the attempts below `retries`, and every earlier attempt failed. */
  lemma {:induction false} FirstSuccessIsFirst(outcomes: seq<Option<Json>>, from: nat, retries: int)
    requires FirstSuccess(outcomes, from, retries).Some?
    ensures exists k :: from <= k < retries && FirstSuccess(outcomes, from, retries) == Outcome(outcomes, k)
                        && forall j :: from <= j < k ==> Outcome(outcomes, j).None?
    decreases retries - from
  {
    if Outcome(outcomes, from).Some? {
      assert from <= from < retries && FirstSuccess(outcomes, from, retries) == Outcome(outcomes, from);
    } else {
      FirstSuccessIsFirst(outcomes, from + 1, retries);
    }
  }

  /** None is returned exactly when every allowed attempt failed. */
  lemma {:induction false} ExhaustedIffAllFailed(outcomes: seq<Option<Json>>, from: nat, retries: int)
    ensures FirstSuccess(outcomes, from, retries).None? <==>
            forall j :: from <= j < retries ==> Outcome(outcomes, j).None?
    decreases retries - from
  {
    if from < retries {
      ExhaustedIffAllFailed(outcomes, from + 1, retries);
    }
  }

  /**
   * An operation that fails `k` times and then succeeds (counting attempts from
   * `from`): the wrapper returns that success when the budget exceeds `k`, and
   * None when it does not.
   */
  lemma {:induction false} FailuresThenSuccess(outcomes: seq<Option<Json>>, from: nat, k: nat, retries: int)
    requires from <= k
    requires forall j :: from <= j < k ==> Outcome(outcomes, j).None?
    requires Outcome(outcomes, k).Some?
    ensures FirstSuccess(outcomes, from, retries) == if k < retries then Outcome(outcomes, k) else None
    decreases k - from
  {
    if from < k && from < retries {
      FailuresThenSuccess(outcomes, from + 1, k, retries);
    }
  }
}

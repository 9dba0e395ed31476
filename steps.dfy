/** A `do { try a; try b; ... } catch { ... }` block: effectful steps run in
    order until the first one throws; the rest are skipped. Whether a step
    throws is decided by the environment and is given as a function. */
module Steps {

  datatype Outcome<S> = Outcome(ran: seq<S>, success: bool)

  /** Run the steps of `plan` in order, stopping after the first that fails.
      The steps that ran are a prefix of the plan; all of them but the last
      succeeded; the run succeeds exactly when the whole plan ran and every
      step succeeded, and otherwise its last step is the one that failed. */
  function Run<S>(plan: seq<S>, ok: S -> bool): (o: Outcome<S>)
    ensures |o.ran| <= |plan| && o.ran == plan[..|o.ran|]
    ensures o.success <==> o.ran == plan && forall i :: 0 <= i < |plan| ==> ok(plan[i])
    ensures forall i :: 0 <= i < |o.ran| - 1 ==> ok(o.ran[i])
    ensures !o.success ==> |o.ran| > 0 && !ok(o.ran[|o.ran| - 1])
    decreases |plan|
  {
    if |plan| == 0 then Outcome([], true)
    else if !ok(plan[0]) then Outcome([plan[0]], false)
    else
      var rest := Run(plan[1..], ok);
      assert forall i :: 1 <= i < |plan| ==> plan[i] == plan[1..][i - 1];
      assert plan[..1 + |rest.ran|] == [plan[0]] + plan[1..][..|rest.ran|];
      Outcome([plan[0]] + rest.ran, rest.success)
  }

  /** Once a step fails, no later step of the plan is attempted. */
  lemma {:induction false} RunStopsAtFirstFailure<S>(plan: seq<S>, ok: S -> bool, k: nat)
    requires k < |plan| && !ok(plan[k])
    requires forall i :: 0 <= i < k ==> ok(plan[i])
    ensures Run(plan, ok) == Outcome(plan[..k + 1], false)
    decreases k
  {
    if k > 0 {
      RunStopsAtFirstFailure(plan[1..], ok, k - 1);
      assert plan[1..][..k] == plan[1..k + 1];
      assert [plan[0]] + plan[1..k + 1] == plan[..k + 1];
    }
  }

  /** When every step succeeds, all of them run, in order. */
  lemma {:induction false} RunAllSucceed<S>(plan: seq<S>, ok: S -> bool)
    requires forall i :: 0 <= i < |plan| ==> ok(plan[i])
    ensures Run(plan, ok) == Outcome(plan, true)
    decreases |plan|
  {
    if |plan| > 0 {
      RunAllSucceed(plan[1..], ok);
      assert [plan[0]] + plan[1..] == plan;
    }
  }
}

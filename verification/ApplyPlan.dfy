/** An apply without a project from plan to answer: the fan-out, then retry or rollback. */
module ApplyPlan {
  import opened Order
  import opened Results
  import opened ApplyOrdered
  import FanOut
  import opened Policies

  /** The steps run the plan's groups to the end and leave these results. */
  ghost predicate FannedOut(plan: seq<TargetPlan>, steps: seq<FanOut.Step>, results: seq<TargetResult>) {
    var groups := FanOut.Groups(PlanIdents(plan));
    FanOut.Run(groups, steps).Some? && FanOut.Run(groups, steps).value.comp == |groups|
        && FanOut.Run(groups, steps).value.done == results
  }

  /** Whatever the interleaving, the first pass gives every planned target one result, and
      nothing else, and each has succeeded or failed. */
  lemma FirstPass(plan: seq<TargetPlan>, steps: seq<FanOut.Step>, results: seq<TargetResult>)
    requires FannedOut(plan, steps, results)
    ensures multiset(Idents(results)) == multiset(PlanIdents(plan))
    ensures FanOut.AllFinished(results) && AllPlanned(plan, results)
    ensures Distinct(PlanIdents(plan)) ==> Distinct(Idents(results))
  {
    var idents := PlanIdents(plan);
    FanOut.RunResults(FanOut.Groups(idents), steps);
    FanOut.GroupsKeepTargets(idents);
    SameElements(Idents(results), idents);
    forall i | 0 <= i < |results|
      ensures InPlan(plan, results[i].ident)
    {
      assert Idents(results)[i] in idents;
      var k :| 0 <= k < |idents| && idents[k] == results[i].ident;
      assert plan[k].ident == results[i].ident;
    }
    if Distinct(idents) {
      PermutationDistinct(idents, Idents(results));
    }
  }

  /** The targets destroyed by a rollback, in order. */
  function DestroyedTargets(first: seq<TargetResult>, log: seq<nat>): (r: seq<TargetIdent>)
    requires forall k :: 0 <= k < |log| ==> log[k] < |first|
    ensures |r| == |log| && forall k :: 0 <= k < |r| ==> r[k] == first[log[k]].ident
  {
    seq(|log|, k requires 0 <= k < |log| => first[log[k]].ident)
  }

  ghost predicate LogInRange(first: seq<TargetResult>, log: seq<nat>) {
    forall k :: 0 <= k < |log| ==> log[k] < |first|
  }

  lemma LogIsInRange(plan: seq<TargetPlan>, world: PolicyWorld, first: seq<TargetResult>, log: seq<nat>)
    requires DestroyLog(plan, world, first, log, |first|)
    ensures LogInRange(first, log)
  {
    forall k | 0 <= k < |log|
      ensures log[k] < |first|
    {
      assert log[k] in log;
    }
  }

  /** With distinct targets no target is destroyed twice. */
  lemma DestroyedOnce(plan: seq<TargetPlan>, world: PolicyWorld, first: seq<TargetResult>, log: seq<nat>)
    requires DestroyLog(plan, world, first, log, |first|) && Distinct(Idents(first)) && LogInRange(first, log)
    ensures Distinct(DestroyedTargets(first, log))
  {
    var targets := DestroyedTargets(first, log);
    forall a, b | 0 <= a < b < |targets|
      ensures targets[a] != targets[b]
    {
      assert Idents(first)[log[a]] != Idents(first)[log[b]];
    }
  }

  /** A slot succeeds in the end exactly if it did at first or one of its retries does. */
  ghost predicate SlotOutcome(world: PolicyWorld, first: seq<TargetResult>, now: seq<TargetResult>, n: nat, i: int) {
    && 0 <= i < |first| == |now|
    && now[i].ident == first[i].ident && FanOut.Finished(now[i])
    && (first[i].status == Succeeded ==> now[i] == first[i])
    && (now[i].status == Succeeded <==>
        first[i].status == Succeeded || exists a :: 1 <= a <= n && world.attempt(a, i) == WorkSucceeded)
  }

  lemma RetryOutcomes(plan: seq<TargetPlan>, world: PolicyWorld, first: seq<TargetResult>, now: seq<TargetResult>,
                      runs: seq<nat>, n: nat, i: nat)
    requires Progress(Retry(plan, world, first), now, runs, n, 0) && i < |now|
    requires FanOut.AllFinished(first) && AllPlanned(plan, first)
    ensures SlotOutcome(world, first, now, n, i) && multiset(runs)[i] <= n
  {
    var retry := Retry(plan, world, first);
    RetryKeepsSlots(retry, now, runs, n, i);
    assert InPlan(plan, first[i].ident);
    assert SlotIs(retry, now, runs, n, 0, i);
    if first[i].status == Failed {
      RetryOutcome(retry, i, n);
    }
  }

  /** What a rollback has done to a slot. */
  ghost predicate SlotRolledBack(world: PolicyWorld, first: seq<TargetResult>, now: seq<TargetResult>, log: seq<nat>,
                                 i: int) {
    && 0 <= i < |first| == |now|
    && now[i].ident == first[i].ident && now[i].targetId == first[i].targetId
    && (i in log <==> first[i].status == Succeeded && world.envOk(i))
    && now[i].status == (if i in log && world.destroyOk(i) then Reverted else Failed)
  }

  lemma RollbackOutcome(plan: seq<TargetPlan>, world: PolicyWorld, first: seq<TargetResult>, now: seq<TargetResult>,
                        log: seq<nat>, i: nat)
    requires RolledUpTo(plan, world, first, now, |first|) && DestroyLog(plan, world, first, log, |first|)
    requires FanOut.AllFinished(first) && AllPlanned(plan, first) && i < |first|
    ensures SlotRolledBack(world, first, now, log, i)
  {
    assert InPlan(plan, first[i].ident);
    FindPlanFinds(plan, first[i].ident);
    assert i in log <==> DestroyCalled(plan, world, first[i], i);
  }

  ghost predicate AllRetried(world: PolicyWorld, first: seq<TargetResult>, now: seq<TargetResult>, runs: seq<nat>,
                             n: nat) {
    |now| == |first| && forall i :: 0 <= i < |first| ==> SlotOutcome(world, first, now, n, i) && multiset(runs)[i] <= n
  }

  lemma AllRetryOutcomes(plan: seq<TargetPlan>, world: PolicyWorld, first: seq<TargetResult>, now: seq<TargetResult>,
                         runs: seq<nat>, n: nat)
    requires Progress(Retry(plan, world, first), now, runs, n, 0)
    requires FanOut.AllFinished(first) && AllPlanned(plan, first)
    ensures AllRetried(world, first, now, runs, n) && Idents(now) == Idents(first)
  {
    forall i | 0 <= i < |first|
      ensures SlotOutcome(world, first, now, n, i) && multiset(runs)[i] <= n && now[i].ident == first[i].ident
    {
      RetryOutcomes(plan, world, first, now, runs, n, i);
    }
    assert |now| == |first|;
  }

  ghost predicate AllRolledBack(plan: seq<TargetPlan>, world: PolicyWorld, first: seq<TargetResult>,
                                now: seq<TargetResult>, log: seq<nat>) {
    && |now| == |first| && LogInRange(first, log)
    && (Distinct(PlanIdents(plan)) ==> Distinct(DestroyedTargets(first, log)))
    && forall i :: 0 <= i < |first| ==> SlotRolledBack(world, first, now, log, i)
  }

  lemma AllRollbackOutcomes(plan: seq<TargetPlan>, world: PolicyWorld, first: seq<TargetResult>, now: seq<TargetResult>,
                            log: seq<nat>)
    requires RolledUpTo(plan, world, first, now, |first|) && DestroyLog(plan, world, first, log, |first|)
    requires FanOut.AllFinished(first) && AllPlanned(plan, first)
    requires Distinct(PlanIdents(plan)) ==> Distinct(Idents(first))
    ensures AllRolledBack(plan, world, first, now, log) && Idents(now) == Idents(first)
  {
    LogIsInRange(plan, world, first, log);
    if Distinct(PlanIdents(plan)) {
      DestroyedOnce(plan, world, first, log);
    }
    forall i | 0 <= i < |first|
      ensures SlotRolledBack(world, first, now, log, i)
    {
      RollbackOutcome(plan, world, first, now, log, i);
    }
  }

  /** The rest of an apply whose first pass, under any interleaving, left `results`. Whatever
      the policy, every planned target keeps its one result. */
  method FinishPlan(results: array<TargetResult>, plan: seq<TargetPlan>, policy: Policy, asked: int, world: PolicyWorld,
                    ghost steps: seq<FanOut.Step>)
    returns (status: ApplyStatus, runs: seq<nat>, destroyed: seq<nat>)
    requires FannedOut(plan, steps, results[..])
    modifies results
    ensures multiset(Idents(results[..])) == multiset(PlanIdents(plan))
    ensures policy == RetryFailed ==>
              destroyed == [] && AllRetried(world, old(results[..]), results[..], runs, if asked > 0 then asked else 1)
    ensures policy == Rollback && Any(old(results[..]), {Failed}) ==>
              && status == ApplyFailed && runs == []
              && AllRolledBack(plan, world, old(results[..]), results[..], destroyed)
    ensures policy != RetryFailed && !(policy == Rollback && Any(old(results[..]), {Failed})) ==>
              results[..] == old(results[..]) && destroyed == [] && runs == []
    ensures status == ApplySucceeded <==> !Any(results[..], {Failed, Reverted, Skipped, Blocked})
  {
    ghost var first := results[..];
    FirstPass(plan, steps, first);
    status, runs, destroyed := FinishApply(results, plan, policy, asked, world);
    if policy == RetryFailed {
      AllRetryOutcomes(plan, world, first, results[..], runs, if asked > 0 then asked else 1);
    }
    if policy == Rollback && Any(first, {Failed}) {
      AllRollbackOutcomes(plan, world, first, results[..], destroyed);
    }
  }
}

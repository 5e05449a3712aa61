/** Partial-failure policies of an apply without a project: retry the failed targets, or roll
    the succeeded ones back. Results are overwritten slot by slot. */
module Policies {
  import opened Components
  import opened Results
  import opened ApplyOrdered

  datatype Policy = Leave | Rollback | RetryFailed

  /** How one retry of a slot ends: the semaphores may refuse (cancellation), in which case
      the worker does not run. */
  datatype Attempt = Refused | WorkFailed | WorkSucceeded

  /** The answers of the world: the `n`-th retry of slot `i`, and resolving the credentials and
      calling Destroy when slot `i` is rolled back. */
  datatype PolicyWorld = PolicyWorld(attempt: (nat, nat) -> Attempt, envOk: nat -> bool, destroyOk: nat -> bool)

  /** `findTargetPlan`: the first planned target of that identity. */
  function FindPlan(plan: seq<TargetPlan>, ident: TargetIdent): Option<TargetPlan> {
    if plan == [] then None
    else if plan[0].ident == ident then Some(plan[0])
    else FindPlan(plan[1..], ident)
  }

  lemma {:induction false} FindPlanFinds(plan: seq<TargetPlan>, ident: TargetIdent)
    ensures FindPlan(plan, ident).Some? <==> InPlan(plan, ident)
    ensures FindPlan(plan, ident).Some? ==> FindPlan(plan, ident).value.ident == ident
  {
    if plan != [] && plan[0].ident != ident {
      FindPlanFinds(plan[1..], ident);
      if InPlan(plan, ident) {
        var i :| 0 <= i < |plan| && plan[i].ident == ident;
        assert plan[1..][i - 1].ident == ident;
      }
    }
  }

  // ---------------------------------------------------------------- retry

  /** What a retry reads: the plan, the world, and the results of the first pass. */
  datatype Retry = Retry(plan: seq<TargetPlan>, world: PolicyWorld, first: seq<TargetResult>)

  function Retried(ident: TargetIdent, plan: seq<TargetPlan>, attempt: Attempt): TargetResult {
    var tp := FindPlan(plan, ident);
    if attempt == Refused || tp.None? then
      TargetResult("", ident, Failed)
    else
      TargetResult(tp.value.targetId, ident, if attempt == WorkSucceeded then Succeeded else Failed)
  }

  /** Slot `i` after `n` rounds: a round re-runs it only while it is failed. */
  function After(retry: Retry, i: nat, n: nat): TargetResult
    requires i < |retry.first|
  {
    if n == 0 then retry.first[i]
    else
      var r := After(retry, i, n - 1);
      if r.status != Failed then r else Retried(r.ident, retry.plan, retry.world.attempt(n, i))
  }

  /** How often the worker of slot `i` has been run again in `n` rounds. */
  function RunsOf(retry: Retry, i: nat, n: nat): nat
    requires i < |retry.first|
  {
    if n == 0 then 0
    else
      RunsOf(retry, i, n - 1) +
      if After(retry, i, n - 1).status == Failed && retry.world.attempt(n, i) != Refused then 1 else 0
  }

  /** A slot that has not failed is never run again nor altered. */
  lemma {:induction false} SettledStays(retry: Retry, i: nat, a: nat, n: nat)
    requires i < |retry.first| && a <= n && After(retry, i, a).status != Failed
    ensures After(retry, i, n) == After(retry, i, a)
    ensures RunsOf(retry, i, n) == RunsOf(retry, i, a)
  {
    if a < n {
      SettledStays(retry, i, a, n - 1);
    }
  }

  /** A failed slot ends up succeeded exactly when it is planned and one of its retries
      succeeds; it keeps its identity, and its worker runs at most once a round. */
  lemma {:induction false} RetryOutcome(retry: Retry, i: nat, n: nat)
    requires i < |retry.first| && retry.first[i].status == Failed
    ensures After(retry, i, n).ident == retry.first[i].ident
    ensures After(retry, i, n).status in {Succeeded, Failed}
    ensures After(retry, i, n).status == Succeeded <==>
            InPlan(retry.plan, retry.first[i].ident)
            && exists a :: 1 <= a <= n && retry.world.attempt(a, i) == WorkSucceeded
    ensures RunsOf(retry, i, n) <= n
  {
    FindPlanFinds(retry.plan, retry.first[i].ident);
    if n > 0 {
      RetryOutcome(retry, i, n - 1);
    }
  }

  method HasAnyFailure(results: array<TargetResult>) returns (any: bool)
    ensures any <==> Any(results[..], {Failed})
  {
    for i := 0 to results.Length
      invariant forall k :: 0 <= k < i ==> results[k].status != Failed
    {
      if results[i].status == Failed {
        assert results[..][i].status == Failed;
        return true;
      }
    }
    return false;
  }

  /** Slots before `upTo` have had `n + 1` rounds, the others `n`; `runs` logs the workers run. */
  ghost predicate Progress(retry: Retry, now: seq<TargetResult>, runs: seq<nat>, n: nat, upTo: nat) {
    && |now| == |retry.first|
    && forall i :: 0 <= i < |now| ==> SlotIs(retry, now, runs, n, upTo, i)
  }

  ghost predicate SlotIs(retry: Retry, now: seq<TargetResult>, runs: seq<nat>, n: nat, upTo: nat, i: int) {
    && 0 <= i < |now| == |retry.first|
    && SlotAt(retry, now[i], runs, i, if i < upTo then n + 1 else n)
  }

  ghost predicate SlotAt(retry: Retry, r: TargetResult, runs: seq<nat>, i: nat, n: nat)
    requires i < |retry.first|
  {
    r == After(retry, i, n) && multiset(runs)[i] == RunsOf(retry, i, n)
  }

  lemma SlotSettled(retry: Retry, now: seq<TargetResult>, runs: seq<nat>, n: nat, i: nat)
    requires i < |now| && Progress(retry, now, runs, n, i) && now[i].status != Failed
    ensures Progress(retry, now, runs, n, i + 1)
  {
    var next := i + 1;
    forall k | 0 <= k < |now|
      ensures SlotIs(retry, now, runs, n, next, k)
    {
      assert SlotIs(retry, now, runs, n, i, k);
    }
  }

  lemma SlotRetried(retry: Retry, now: seq<TargetResult>, runs: seq<nat>, n: nat, i: nat,
                    changed: seq<TargetResult>, more: seq<nat>)
    requires i < |now| && Progress(retry, now, runs, n, i) && now[i].status == Failed
    requires changed == now[i := Retried(now[i].ident, retry.plan, retry.world.attempt(n + 1, i))]
    requires more == if retry.world.attempt(n + 1, i) == Refused then runs else runs + [i]
    ensures Progress(retry, changed, more, n, i + 1)
  {
    var next := i + 1;
    forall k | 0 <= k < |now|
      ensures SlotIs(retry, changed, more, n, next, k)
    {
      assert SlotIs(retry, now, runs, n, i, k);
    }
  }

  lemma RoundDone(retry: Retry, now: seq<TargetResult>, runs: seq<nat>, n: nat)
    requires Progress(retry, now, runs, n, |now|)
    ensures Progress(retry, now, runs, n + 1, 0)
  {
    var next, zero: nat := n + 1, 0;
    forall k | 0 <= k < |now|
      ensures SlotIs(retry, now, runs, next, zero, k)
    {
      assert SlotIs(retry, now, runs, n, |now|, k);
    }
  }

  lemma AllSettled(retry: Retry, now: seq<TargetResult>, runs: seq<nat>, n: nat, last: nat)
    requires Progress(retry, now, runs, n, 0) && n <= last && !Any(now, {Failed})
    ensures Progress(retry, now, runs, last, 0)
  {
    var zero: nat := 0;
    forall k | 0 <= k < |now|
      ensures SlotIs(retry, now, runs, last, zero, k)
    {
      assert SlotIs(retry, now, runs, n, 0, k);
      SettledStays(retry, k, n, last);
    }
  }

  method RetryRound(results: array<TargetResult>, plan: seq<TargetPlan>, attempt: nat, world: PolicyWorld,
                    runs0: seq<nat>, ghost retry: Retry)
    returns (runs: seq<nat>)
    requires attempt >= 1 && retry.plan == plan && retry.world == world
    requires Progress(retry, results[..], runs0, attempt - 1, 0)
    modifies results
    ensures Progress(retry, results[..], runs, attempt, 0)
  {
    runs := runs0;
    for i := 0 to results.Length
      invariant Progress(retry, results[..], runs, attempt - 1, i)
    {
      ghost var now, before := results[..], runs;
      assert now[i] == results[i];
      if results[i].status != Failed {
        SlotSettled(retry, now, runs, attempt - 1, i);
        continue;
      }
      var answer := world.attempt(attempt, i);
      if answer != Refused {
        runs := runs + [i];
      }
      results[i] := Retried(results[i].ident, plan, answer);
      SlotRetried(retry, now, before, attempt - 1, i, results[..], runs);
    }
    assert |results[..]| == results.Length;
    RoundDone(retry, results[..], runs, attempt - 1);
  }

  /** `maybeRetry`: rounds over the failed slots until none is left or the retries are spent. */
  method MaybeRetry(results: array<TargetResult>, plan: seq<TargetPlan>, policy: Policy, maxRetries: nat,
                    world: PolicyWorld)
    returns (runs: seq<nat>)
    modifies results
    ensures policy != RetryFailed ==> results[..] == old(results[..]) && runs == []
    ensures policy == RetryFailed ==> Progress(Retry(plan, world, old(results[..])), results[..], runs, maxRetries, 0)
  {
    runs := [];
    if policy != RetryFailed {
      return;
    }
    ghost var retry := Retry(plan, world, results[..]);
    var attempt := 1;
    while attempt <= maxRetries
      invariant 1 <= attempt <= maxRetries + 1
      invariant Progress(retry, results[..], runs, attempt - 1, 0)
    {
      var any := HasAnyFailure(results);
      if !any {
        AllSettled(retry, results[..], runs, attempt - 1, maxRetries);
        return;
      }
      runs := RetryRound(results, plan, attempt, world, runs, retry);
      attempt := attempt + 1;
    }
  }

  // ---------------------------------------------------------------- rollback

  predicate DestroyCalled(plan: seq<TargetPlan>, world: PolicyWorld, r: TargetResult, i: nat) {
    r.status == Succeeded && FindPlan(plan, r.ident).Some? && world.envOk(i)
  }

  /** A slot after the rollback: only a succeeded, planned slot changes, and only its status. */
  ghost function RolledBack(plan: seq<TargetPlan>, world: PolicyWorld, r: TargetResult, i: nat): TargetResult {
    if r.status != Succeeded || FindPlan(plan, r.ident).None? then r
    else r.(status := if DestroyCalled(plan, world, r, i) && world.destroyOk(i) then Reverted else Failed)
  }

  ghost predicate RolledUpTo(plan: seq<TargetPlan>, world: PolicyWorld, first: seq<TargetResult>,
                             now: seq<TargetResult>, upTo: nat) {
    && |now| == |first|
    && forall i :: 0 <= i < |first| ==> now[i] == if i < upTo then RolledBack(plan, world, first[i], i) else first[i]
  }

  /** Which slots' targets were destroyed: each once, in slot order, and no others. */
  ghost predicate DestroyLog(plan: seq<TargetPlan>, world: PolicyWorld, first: seq<TargetResult>, log: seq<nat>,
                             upTo: nat) {
    && (forall a, b :: 0 <= a < b < |log| ==> log[a] < log[b])
    && (forall i: nat :: i in log <==> i < upTo && i < |first| && DestroyCalled(plan, world, first[i], i))
  }

  lemma LogNext(plan: seq<TargetPlan>, world: PolicyWorld, first: seq<TargetResult>, log: seq<nat>, i: nat,
                more: seq<nat>)
    requires i < |first| && DestroyLog(plan, world, first, log, i)
    requires more == if DestroyCalled(plan, world, first[i], i) then log + [i] else log
    ensures DestroyLog(plan, world, first, more, i + 1)
  {
    forall a, b | 0 <= a < b < |more|
      ensures more[a] < more[b]
    {
      assert more[a] in log;
    }
  }

  method RollbackSlot(results: array<TargetResult>, plan: seq<TargetPlan>, world: PolicyWorld, i: nat)
    returns (destroyed: bool)
    requires i < results.Length
    modifies results
    ensures destroyed == DestroyCalled(plan, world, old(results[i]), i)
    ensures results[..] == old(results[..])[i := RolledBack(plan, world, old(results[i]), i)]
  {
    var r := results[i];
    if r.status != Succeeded {
      return false;
    }
    var tp := FindPlan(plan, r.ident);
    if tp.None? {
      return false;
    }
    if !world.envOk(i) {
      results[i] := r.(status := Failed);
      return false;
    }
    if !world.destroyOk(i) {
      results[i] := r.(status := Failed);
      return true;
    }
    results[i] := r.(status := Reverted);
    return true;
  }

  method RollbackAll(results: array<TargetResult>, plan: seq<TargetPlan>,
                     world: PolicyWorld) returns (destroyed: seq<nat>)
    modifies results
    ensures RolledUpTo(plan, world, old(results[..]), results[..], results.Length)
    ensures DestroyLog(plan, world, old(results[..]), destroyed, results.Length)
  {
    destroyed := [];
    ghost var first := results[..];
    for i := 0 to results.Length
      invariant RolledUpTo(plan, world, first, results[..], i)
      invariant DestroyLog(plan, world, first, destroyed, i)
    {
      assert results[..][i] == first[i];
      var called := RollbackSlot(results, plan, world, i);
      LogNext(plan, world, first, destroyed, i, if called then destroyed + [i] else destroyed);
      if called {
        destroyed := destroyed + [i];
      }
    }
  }

  lemma NothingLeft(plan: seq<TargetPlan>, world: PolicyWorld, first: seq<TargetResult>, now: seq<TargetResult>)
    requires RolledUpTo(plan, world, first, now, |first|) && AllPlanned(plan, first)
    requires Any(first, {Failed})
    ensures !Any(now, {Succeeded}) && Any(now, {Failed})
  {
    forall i | 0 <= i < |now|
      ensures now[i].status != Succeeded
    {
      assert InPlan(plan, first[i].ident);
      FindPlanFinds(plan, first[i].ident);
    }
    var i :| 0 <= i < |first| && first[i].status in {Failed};
    assert now[i] == first[i];
  }

  // ---------------------------------------------------------------- the end of an apply

  ghost predicate AllPlanned(plan: seq<TargetPlan>, results: seq<TargetResult>) {
    forall i :: 0 <= i < |results| ==> InPlan(plan, results[i].ident)
  }

  /** Apply from the end of the first pass on: retry, then rollback, then the summary. Once a
      rollback fires on planned targets the apply has failed as a whole, whatever Destroy
      answers. */
  method FinishApply(results: array<TargetResult>, plan: seq<TargetPlan>, policy: Policy, asked: int,
                     world: PolicyWorld)
    returns (status: ApplyStatus, runs: seq<nat>, destroyed: seq<nat>)
    modifies results
    ensures policy == RetryFailed ==>
              && destroyed == []
              && Progress(Retry(plan, world, old(results[..])), results[..], runs, if asked > 0 then asked else 1, 0)
    ensures policy != RetryFailed ==> runs == []
    ensures policy == Rollback && Any(old(results[..]), {Failed}) ==>
              && RolledUpTo(plan, world, old(results[..]), results[..], results.Length)
              && DestroyLog(plan, world, old(results[..]), destroyed, results.Length)
              && (AllPlanned(plan, old(results[..])) ==> status == ApplyFailed && !Any(results[..], {Succeeded}))
    ensures policy != RetryFailed && !(policy == Rollback && Any(old(results[..]), {Failed})) ==>
              results[..] == old(results[..]) && destroyed == []
    ensures status == ApplySucceeded <==> !Any(results[..], {Failed, Reverted, Skipped, Blocked})
    ensures status == ApplyFailed
        <==> Any(results[..], {Failed, Reverted, Skipped, Blocked}) && !Any(results[..], {Succeeded})
    ensures status != ApplyRollbackFailed
  {
    ghost var first := results[..];
    var maxRetries := if asked <= 0 then 1 else asked;
    runs := MaybeRetry(results, plan, policy, maxRetries, world);
    var any := HasAnyFailure(results);
    destroyed := [];
    if policy == Rollback && any {
      destroyed := RollbackAll(results, plan, world);
      if AllPlanned(plan, first) {
        NothingLeft(plan, world, first, results[..]);
      }
    }
    status := Summarize(results[..]);
    assert Any(results[..], {Failed}) ==> Any(results[..], {Failed, Reverted, Skipped, Blocked});
  }

  /** With the retry policy every slot keeps its identity, a slot that succeeded first is left
      exactly as it was, and no worker runs more than `n` times again. */
  lemma RetryKeepsSlots(retry: Retry, now: seq<TargetResult>, runs: seq<nat>, n: nat, i: nat)
    requires Progress(retry, now, runs, n, 0) && i < |now| && retry.first[i].status in {Succeeded, Failed}
    ensures now[i].ident == retry.first[i].ident
    ensures retry.first[i].status == Succeeded ==> now[i] == retry.first[i] && multiset(runs)[i] == 0
    ensures multiset(runs)[i] <= n
    ensures now[i].status == Succeeded <==>
            retry.first[i].status == Succeeded ||
            (InPlan(retry.plan, retry.first[i].ident)
             && exists a :: 1 <= a <= n && retry.world.attempt(a, i) == WorkSucceeded)
  {
    assert SlotIs(retry, now, runs, n, 0, i);
    if retry.first[i].status == Failed {
      RetryOutcome(retry, i, n);
    } else {
      SettledStays(retry, i, 0, n);
    }
  }

  /** `plan[p]` is the first target planned under the identity. */
  ghost predicate FirstPlanned(plan: seq<TargetPlan>, ident: TargetIdent, p: int) {
    0 <= p < |plan| && plan[p].ident == ident && forall l :: 0 <= l < p ==> plan[l].ident != ident
  }

  lemma {:induction false} FindPlanIsFirst(plan: seq<TargetPlan>, ident: TargetIdent, p: nat)
    requires FirstPlanned(plan, ident, p)
    ensures FindPlan(plan, ident) == Some(plan[p])
  {
    if p > 0 {
      assert FirstPlanned(plan[1..], ident, p - 1);
      FindPlanIsFirst(plan[1..], ident, p - 1);
    }
  }

  /** The retry goes as far as round `a` on slot `i`, and the slot's worker is called in it. */
  ghost predicate RunsIn(retry: Retry, i: nat, a: nat)
    requires i < |retry.first|
  {
    && retry.world.attempt(a, i) != Refused
    && (InPlan(retry.plan, retry.first[i].ident) ==>
          forall b :: 1 <= b < a ==> retry.world.attempt(b, i) != WorkSucceeded)
  }

  ghost function RoundsRun(retry: Retry, i: nat, n: nat): set<nat>
    requires i < |retry.first|
  {
    set a: nat | 1 <= a <= n && RunsIn(retry, i, a)
  }

  lemma {:induction false} RunsOfCounts(retry: Retry, i: nat, n: nat)
    requires i < |retry.first| && retry.first[i].status == Failed
    ensures RunsOf(retry, i, n) == |RoundsRun(retry, i, n)|
  {
    if n == 0 {
      assert RoundsRun(retry, i, n) == {};
    } else {
      RunsOfCounts(retry, i, n - 1);
      RetryOutcome(retry, i, n - 1);
      RoundsNext(retry, i, n);
    }
  }

  lemma RoundsNext(retry: Retry, i: nat, n: nat)
    requires i < |retry.first| && n > 0
    ensures |RoundsRun(retry, i, n)| == |RoundsRun(retry, i, n - 1)| + if RunsIn(retry, i, n) then 1 else 0
  {
    var before := RoundsRun(retry, i, n - 1);
    assert n !in before;
    assert RoundsRun(retry, i, n) == if RunsIn(retry, i, n) then before + {n} else before;
  }

  /** A failed slot that is retried: its worker is called again in exactly the rounds up to its
      first success in which it gets a turn, and what the slot ends up with goes by the planned
      target's identifier, or, where the last round did not get that far, by none. */
  lemma RetriedSlot(retry: Retry, now: seq<TargetResult>, runs: seq<nat>, n: nat, i: nat)
    requires Progress(retry, now, runs, n, 0) && i < |now| && retry.first[i].status == Failed && n > 0
    ensures multiset(runs)[i] == |RoundsRun(retry, i, n)|
    ensures forall p :: FirstPlanned(retry.plan, retry.first[i].ident, p) ==>
              now[i].targetId ==
              if now[i].status == Failed && retry.world.attempt(n, i) == Refused then "" else retry.plan[p].targetId
    ensures !InPlan(retry.plan, retry.first[i].ident) ==> now[i].targetId == ""
  {
    assert SlotIs(retry, now, runs, n, 0, i);
    RunsOfCounts(retry, i, n);
    RetriedId(retry, i, n);
  }

  lemma {:induction false} RetriedId(retry: Retry, i: nat, n: nat)
    requires i < |retry.first| && retry.first[i].status == Failed && n > 0
    ensures forall p :: FirstPlanned(retry.plan, retry.first[i].ident, p) ==>
              After(retry, i, n).targetId ==
              if After(retry, i, n).status == Failed && retry.world.attempt(n, i) == Refused then ""
              else retry.plan[p].targetId
    ensures !InPlan(retry.plan, retry.first[i].ident) ==> After(retry, i, n).targetId == ""
  {
    RetryOutcome(retry, i, n - 1);
    FindPlanFinds(retry.plan, retry.first[i].ident);
    if n > 1 {
      RetriedId(retry, i, n - 1);
    }
    forall p | FirstPlanned(retry.plan, retry.first[i].ident, p)
      ensures FindPlan(retry.plan, retry.first[i].ident) == Some(retry.plan[p])
    {
      FindPlanIsFirst(retry.plan, retry.first[i].ident, p);
    }
  }

  /** A rollback whose Destroy fails: the apply has failed, and says no more than that. */
  method FailedRollbackIsJustFailed() returns (status: ApplyStatus, destroyed: seq<nat>)
    ensures status == ApplyFailed && destroyed == [0]
  {
    var a, b := TargetIdent("a", "aws", "eu"), TargetIdent("b", "aws", "eu");
    var plan := [TargetPlan("1", a, "a"), TargetPlan("2", b, "b")];
    var results := new TargetResult[2](i =>
        if i == 0 then TargetResult("1", a, Succeeded) else TargetResult("2", b, Failed));
    var world := PolicyWorld((n, i) => WorkFailed, i => true, i => false);
    ghost var first := results[..];
    assert first == [TargetResult("1", a, Succeeded), TargetResult("2", b, Failed)];
    assert first[1].status in {Failed};
    assert plan[0].ident == a && plan[1].ident == b;
    assert InPlan(plan, a) && InPlan(plan, b);
    var runs;
    status, runs, destroyed := FinishApply(results, plan, Rollback, 1, world);
    FindPlanFinds(plan, a);
    OnlyFirstDestroyed(plan, world, first, destroyed);
  }

  lemma OnlyFirstDestroyed(plan: seq<TargetPlan>, world: PolicyWorld, first: seq<TargetResult>, log: seq<nat>)
    requires |first| == 2 && DestroyLog(plan, world, first, log, 2)
    requires DestroyCalled(plan, world, first[0], 0) && first[1].status == Failed
    ensures log == [0]
  {
    assert |log| > 1 ==> log[0] < log[1];
    assert 0 in log && 1 !in log;
    forall k | 0 <= k < |log|
      ensures log[k] == 0
    {
      assert log[k] in log;
    }
  }
}

/** `destroyToposorted`: the targets in reverse dependency order, every one attempted. */
module Destroy {
  import opened Order
  import opened RefGraph
  import opened Components
  import opened Results
  import opened Targets
  import opened ApplyOrdered

  function Reversed<T>(s: seq<T>): (r: seq<T>)
    ensures |r| == |s| && forall i :: 0 <= i < |s| ==> r[i] == s[|s| - 1 - i]
  {
    seq(|s|, i requires 0 <= i < |s| => s[|s| - 1 - i])
  }

  lemma ReversedPermutes<T>(s: seq<T>)
    ensures multiset(Reversed(s)) == multiset(s)
  {
    if s != [] {
      var tail := s[1..];
      ReversedPermutes(tail);
      assert Reversed(s) == Reversed(tail) + [s[0]];
      assert s == [s[0]] + tail;
    }
  }

  /** The swap loop of `destroyToposorted` and `reverseComponents`. */
  method ReverseInPlace<T>(a: array<T>)
    modifies a
    ensures a[..] == Reversed(old(a[..]))
  {
    var i, j := 0, a.Length - 1;
    while i < j
      invariant 0 <= i <= a.Length && j == a.Length - 1 - i && i <= j + 1
      invariant forall k :: 0 <= k < i ==> a[k] == old(a[a.Length - 1 - k]) && a[a.Length - 1 - k] == old(a[k])
      invariant forall k :: i <= k <= j ==> a[k] == old(a[k])
      decreases j - i
    {
      a[i], a[j] := a[j], a[i];
      i, j := i + 1, j - 1;
    }
    forall k | 0 <= k < a.Length
      ensures a[k] == old(a[a.Length - 1 - k])
    {
      if k > j {
        var m := a.Length - 1 - k;
        assert m < i || m == k;
      }
    }
  }

  /** What resolving the credentials and calling the runner's Destroy at turn `k` yields. */
  datatype DestroyWorld = DestroyWorld(envOk: nat -> bool, destroyOk: nat -> bool)

  ghost predicate DestroyedAt(plan: seq<TargetPlan>, order: seq<TargetIdent>, world: DestroyWorld,
                              results: seq<TargetResult>,
                              calls: seq<seq<TargetIdent>>, k: int) {
    && 0 <= k < |results| && k < |order| && k < |calls|
    && order[k] in IndexTargets(plan)
    && results[k].ident == order[k] && results[k].targetId == IndexTargets(plan)[order[k]].targetId
    && results[k].status == (if world.envOk(k) && world.destroyOk(k) then Succeeded else Failed)
    && calls[k] == if world.envOk(k) then [order[k]] else []
  }

  /** One result per turn taken so far, each with the runner call that turn makes. */
  ghost predicate DestroyRun(plan: seq<TargetPlan>, order: seq<TargetIdent>, world: DestroyWorld,
                             results: seq<TargetResult>, calls: seq<seq<TargetIdent>>) {
    && |results| == |calls| <= |order|
    && forall k :: 0 <= k < |results| ==> DestroyedAt(plan, order, world, results, calls, k)
  }

  lemma DestroyNext(plan: seq<TargetPlan>, order: seq<TargetIdent>, world: DestroyWorld, results: seq<TargetResult>,
                    calls: seq<seq<TargetIdent>>,
                    result: TargetResult, turn: seq<TargetIdent>)
    requires DestroyRun(plan, order, world, results, calls) && |results| < |order|
    requires result.ident == order[|results|] && result.ident in IndexTargets(plan)
    requires result.targetId == IndexTargets(plan)[result.ident].targetId
    requires result.status == if world.envOk(|results|) && world.destroyOk(|results|) then Succeeded else Failed
    requires turn == if world.envOk(|results|) then [result.ident] else []
    ensures DestroyRun(plan, order, world, results + [result], calls + [turn])
  {
    var more, log := results + [result], calls + [turn];
    forall k | 0 <= k < |more|
      ensures DestroyedAt(plan, order, world, more, log, k)
    {
      if k < |results| {
        assert DestroyedAt(plan, order, world, results, calls, k);
      }
    }
  }

  method DestroyToposorted(plan: seq<TargetPlan>, project: seq<Component>, world: DestroyWorld)
    returns (r: Result<(ApplyStatus, seq<TargetResult>), OrderError>, calls: seq<seq<TargetIdent>>)
    ensures r.Ok? <==> TargetSpec(PlanIdents(plan), project).Ok?
    ensures r.Ok? ==> var order, results := Reversed(TargetSpec(PlanIdents(plan), project).value), r.value.1;
                      && |results| == |order| && DestroyRun(plan, order, world, results, calls)
                      && (r.value.0 == ApplySucceeded <==> !Any(results, {Failed, Reverted, Skipped, Blocked}))
                      && (r.value.0 == ApplyFailed
                          <==> Any(results, {Failed, Reverted, Skipped, Blocked}) && !Any(results, {Succeeded}))
  {
    calls := [];
    var sorted := ToposortTargets(PlanIdents(plan), project);
    if sorted.Err? {
      return Err(sorted.error), calls;
    }
    var ordered := new TargetIdent[|sorted.value|](i requires 0 <= i < |sorted.value| => sorted.value[i]);
    assert ordered[..] == sorted.value;
    ReverseInPlace(ordered);
    AllPlanned(plan, project);
    var results;
    results, calls := DestroyEach(ordered, plan, world);
    var summary := Summarize(results);
    return Ok((summary, results)), calls;
  }

  method DestroyEach(ordered: array<TargetIdent>, plan: seq<TargetPlan>, world: DestroyWorld)
    returns (results: seq<TargetResult>, calls: seq<seq<TargetIdent>>)
    requires forall t :: t in ordered[..] ==> t in IndexTargets(plan)
    ensures |results| == ordered.Length && DestroyRun(plan, ordered[..], world, results, calls)
  {
    var byIdent := IndexTargets(plan);
    results, calls := [], [];
    for k := 0 to ordered.Length
      invariant |results| == k && DestroyRun(plan, ordered[..], world, results, calls)
    {
      var ident := ordered[k];
      assert ident == ordered[..][k] && ident in ordered[..];
      var status, turn := DestroyTarget(ident, world, k);
      var result := TargetResult(byIdent[ident].targetId, ident, status);
      DestroyNext(plan, ordered[..], world, results, calls, result, turn);
      results := results + [result];
      calls := calls + [turn];
    }
  }

  method DestroyTarget(ident: TargetIdent, world: DestroyWorld, k: nat) returns (status: RunStatus,
                       calls: seq<TargetIdent>)
    ensures status == if world.envOk(k) && world.destroyOk(k) then Succeeded else Failed
    ensures calls == if world.envOk(k) then [ident] else []
  {
    if !world.envOk(k) {
      return Failed, [];
    }
    if !world.destroyOk(k) {
      return Failed, [ident];
    }
    return Succeeded, [ident];
  }

  lemma AllPlanned(plan: seq<TargetPlan>, project: seq<Component>)
    requires TargetSpec(PlanIdents(plan), project).Ok?
    ensures forall t :: t in Reversed(TargetSpec(PlanIdents(plan), project).value) ==> t in IndexTargets(plan)
  {
    var ordered := TargetSpec(PlanIdents(plan), project).value;
    OrderedInPlan(plan, project);
    ReversedPermutes(ordered);
    SameElements(Reversed(ordered), ordered);
  }

  ghost predicate DependentsFirst(g: Graph<string>, targets: seq<TargetIdent>) {
    forall i, j :: 0 <= i < |targets| && 0 <= j < |targets| && Edge(g, targets[i].component, targets[j].component)
        ==> i < j
  }

  /** However many destroys fail, each plan target is attempted exactly once, and every target
      of a dependent comes before every target of a component it refers to, across all clouds
      and regions. */
  lemma DestroysDependentsFirst(plan: seq<TargetPlan>, project: seq<Component>)
    requires TargetSpec(PlanIdents(plan), project).Ok?
    ensures multiset(Reversed(TargetSpec(PlanIdents(plan), project).value)) == multiset(PlanIdents(plan))
    ensures DependentsFirst(GraphOf(project), Reversed(TargetSpec(PlanIdents(plan), project).value))
  {
    var ordered := TargetSpec(PlanIdents(plan), project).value;
    TargetsDependencyFirst(PlanIdents(plan), project);
    ReversedPermutes(ordered);
  }
}

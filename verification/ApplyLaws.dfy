/** What every run of `applyToposorted` guarantees, whatever the runner and the state files do. */
module ApplyLaws {
  import opened Order
  import opened RefGraph
  import opened Components
  import opened Results
  import opened Targets
  import opened VarNames
  import opened ApplyOrdered

  /** A finished run on a plan whose components the project declares. */
  ghost predicate Finished(run: Run, ordered: seq<TargetIdent>, results: seq<TargetResult>, calls: seq<seq<Call>>) {
    && TargetSpec(PlanIdents(run.plan), run.project) == Ok(ordered)
    && ValidRun(run, ordered, results, calls) && |results| == |ordered|
    && forall i :: 0 <= i < |run.plan| ==> run.plan[i].ident.component in Names(run.project)
  }

  ghost predicate LastResult(results: seq<TargetResult>, t: TargetIdent, i: int) {
    && 0 <= i < |results| && results[i].ident == t
    && forall j :: i < j < |results| ==> results[j].ident != t
  }

  ghost predicate LastWithStatus(results: seq<TargetResult>, t: TargetIdent, i: int, status: RunStatus) {
    LastResult(results, t, i) && results[i].status == status
  }

  ghost predicate Absent(results: seq<TargetResult>, t: TargetIdent) {
    forall i :: 0 <= i < |results| ==> results[i].ident != t
  }

  lemma LastKept(init: seq<TargetResult>, x: TargetResult, t: TargetIdent, i: int, status: RunStatus)
    requires LastWithStatus(init, t, i, status) && x.ident != t
    ensures LastWithStatus(init + [x], t, i, status)
  {
  }

  lemma StatusMapLast(results: seq<TargetResult>, t: TargetIdent)
    ensures t in StatusMap(results) ==> exists i :: LastWithStatus(results, t, i, StatusMap(results)[t])
    ensures t !in StatusMap(results) ==> Absent(results, t)
  {
    if results != [] {
      var init, last := results[..|results| - 1], results[|results| - 1];
      assert results == init + [last];
      StatusMapLast(init, t);
      if last.ident == t {
        assert LastWithStatus(results, t, |init|, last.status);
      } else if t in StatusMap(init) {
        var i :| LastWithStatus(init, t, i, StatusMap(init)[t]);
        LastKept(init, last, t, i, StatusMap(init)[t]);
      }
    }
  }

  lemma {:induction false} FindComponentIsIndexed(cs: seq<Component>, name: string)
    ensures name in Names(cs) ==> FindComponent(cs, name) in cs && FindComponent(cs, name).name == name
    ensures name !in Names(cs) ==> FindComponent(cs, name).refs == []
  {
    if cs != [] {
      var rest := cs[1..];
      FindComponentIsIndexed(rest, name);
      NamesCons(cs, name);
      assert forall c :: c in rest ==> c in cs;
    }
  }

  lemma NamesCons(cs: seq<Component>, name: string)
    requires cs != []
    ensures name in Names(cs) <==> name == cs[0].name || name in Names(cs[1..])
  {
    assert Names(cs) == [cs[0].name] + Names(cs[1..]);
  }

  lemma RefIsEdge(run: Run, ident: TargetIdent, j: nat)
    requires UniqueNames(run.project) && j < |RefsOf(run, ident)|
    requires RefsOf(run, ident)[j].component in Names(run.project)
    ensures Edge(GraphOf(run.project), ident.component, RefsOf(run, ident)[j].component)
  {
    var cs, name := run.project, ident.component;
    FindComponentIsIndexed(cs, name);
    var c := FindComponent(cs, name);
    var i :| 0 <= i < |cs| && cs[i] == c;
    IndexAt(cs, i);
    assert RefNames(c.refs)[j] == c.refs[j].component;
  }

  /** A planned upstream target has its turn before every target that refers to it. */
  lemma UpstreamTurnsFirst(run: Run, ordered: seq<TargetIdent>, results: seq<TargetResult>, calls: seq<seq<Call>>,
                           k: nat, j: nat)
    requires Finished(run, ordered, results, calls) && k < |ordered| && j < |RefsOf(run, ordered[k])|
    requires InPlan(run.plan, Upstream(ordered[k], RefsOf(run, ordered[k])[j]))
    ensures var up := Upstream(ordered[k], RefsOf(run, ordered[k])[j]);
            && up in ordered
            && forall i :: 0 <= i < |ordered| && ordered[i] == up ==> i < k
  {
    var up := Upstream(ordered[k], RefsOf(run, ordered[k])[j]);
    var p :| 0 <= p < |run.plan| && run.plan[p].ident == up;
    assert UniqueNames(run.project);
    RefIsEdge(run, ordered[k], j);
    PlannedIsOrdered(run, ordered, up);
    TargetsDependencyFirst(PlanIdents(run.plan), run.project);
    forall i | 0 <= i < |ordered| && ordered[i] == up
      ensures i < k
    {
      assert Edge(GraphOf(run.project), ordered[k].component, ordered[i].component);
    }
  }

  lemma PlannedIsOrdered(run: Run, ordered: seq<TargetIdent>, t: TargetIdent)
    requires TargetSpec(PlanIdents(run.plan), run.project) == Ok(ordered) && InPlan(run.plan, t)
    ensures t in ordered
  {
    OrderedInPlan(run.plan, run.project);
  }

  lemma StatusIsOutcome(run: Run, ordered: seq<TargetIdent>, results: seq<TargetResult>, calls: seq<seq<Call>>, i: nat)
    requires ValidRun(run, ordered, results, calls) && i < |results|
    ensures results[i].status in {Succeeded, Failed, Blocked} && results[i].ident == ordered[i]
  {
    assert ResultAt(run, ordered, results, calls, i);
  }

  ghost predicate Recorded(results: seq<TargetResult>, k: int, t: TargetIdent, status: RunStatus) {
    exists i :: 0 <= i < k <= |results| && results[i].ident == t && results[i].status == status
  }

  lemma EarlierSucceeded(run: Run, ordered: seq<TargetIdent>, results: seq<TargetResult>, calls: seq<seq<Call>>,
                         k: nat, up: TargetIdent)
    requires ValidRun(run, ordered, results, calls) && k < |results|
    requires exists i :: 0 <= i < k && ordered[i] == up
    requires !Down(StatusMap(results[..k]), up)
    ensures Recorded(results, k, up, Succeeded)
  {
    var before := results[..k];
    StatusMapLast(before, up);
    var i :| 0 <= i < k && ordered[i] == up;
    StatusIsOutcome(run, ordered, results, calls, i);
    assert before[i].ident == up;
    assert !Absent(before, up);
    var l :| LastWithStatus(before, up, l, StatusMap(before)[up]);
    StatusIsOutcome(run, ordered, results, calls, l);
    assert before[l] == results[l];
  }

  /** The runner's Apply is called on a target only when each component the target refers to
      has a target in the same cloud and region that is planned and already recorded as
      succeeded earlier in the run. */
  lemma AppliesOnlyAfterUpstreamSucceeded(run: Run, ordered: seq<TargetIdent>, results: seq<TargetResult>,
                                          calls: seq<seq<Call>>, k: nat, j: nat)
    requires Finished(run, ordered, results, calls) && k < |ordered| && j < |RefsOf(run, ordered[k])|
    requires exists call :: call in calls[k] && call.ApplyCall?
    ensures var up := Upstream(ordered[k], RefsOf(run, ordered[k])[j]);
            InPlan(run.plan, up) && Recorded(results, k, up, Succeeded)
  {
    assert ResultAt(run, ordered, results, calls, k);
    var refs := RefsOf(run, ordered[k]);
    var up := Upstream(ordered[k], refs[j]);
    assert ReachesPlan(run, StatusMap(results[..k]), ordered[k], k);
    assert ReadRef(run, ordered[k], refs[j], k, j).Ok?;
    assert InPlan(run.plan, up);
    UpstreamTurnsFirst(run, ordered, results, calls, k, j);
    var i :| 0 <= i < |ordered| && ordered[i] == up;
    assert !Down(StatusMap(results[..k]), Upstream(ordered[k], refs[j]));
    EarlierSucceeded(run, ordered, results, calls, k, up);
  }

  // ---------------------------------------------------------------- blocking

  /** `b` is a planned target, in the cloud and region of `a`, of a component `a` refers to. */
  ghost predicate UpStep(run: Run, a: TargetIdent, b: TargetIdent) {
    InPlan(run.plan, b) && exists j :: UpStepBy(run, a, b, j)
  }

  predicate UpStepBy(run: Run, a: TargetIdent, b: TargetIdent, j: int) {
    0 <= j < |RefsOf(run, a)| && Upstream(a, RefsOf(run, a)[j]) == b
  }

  ghost predicate UpChain(run: Run, p: seq<TargetIdent>) {
    forall i :: 0 <= i < |p| - 1 ==> UpStep(run, p[i], p[i + 1])
  }

  /** A chain of planned targets from `t` up to one that was recorded as failed. */
  ghost predicate FailedChain(run: Run, results: seq<TargetResult>, t: TargetIdent, p: seq<TargetIdent>) {
    |p| >= 2 && p[0] == t && UpChain(run, p) && Recorded(results, |results|, p[|p| - 1], Failed)
  }

  lemma UpChainCons(run: Run, t: TargetIdent, p: seq<TargetIdent>)
    requires UpChain(run, p) && p != [] && UpStep(run, t, p[0])
    ensures UpChain(run, [t] + p)
  {
    var q := [t] + p;
    forall i | 0 <= i < |q| - 1
      ensures UpStep(run, q[i], q[i + 1])
    {
      if i > 0 {
        assert UpStep(run, p[i - 1], p[i]);
      }
    }
  }

  lemma UpChainTail(run: Run, p: seq<TargetIdent>)
    requires UpChain(run, p) && |p| >= 2
    ensures UpStep(run, p[0], p[1]) && UpChain(run, p[1..])
  {
    var q := p[1..];
    forall i | 0 <= i < |q| - 1
      ensures UpStep(run, q[i], q[i + 1])
    {
      assert UpStep(run, p[i + 1], p[i + 2]);
    }
  }

  lemma FailedChainTail(run: Run, results: seq<TargetResult>, t: TargetIdent, p: seq<TargetIdent>)
    requires FailedChain(run, results, t, p)
    ensures UpStep(run, t, p[1])
    ensures if |p| == 2 then Recorded(results, |results|, p[1], Failed) else FailedChain(run, results, p[1], p[1..])
  {
    UpChainTail(run, p);
    assert p[1..][|p| - 2] == p[|p| - 1];
  }

  lemma OneResultEach(run: Run, ordered: seq<TargetIdent>, results: seq<TargetResult>, calls: seq<seq<Call>>, i: nat,
                      j: nat)
    requires Finished(run, ordered, results, calls) && Distinct(PlanIdents(run.plan))
    requires i < |results| && j < |results| && results[i].ident == results[j].ident
    ensures i == j
  {
    TargetsDependencyFirst(PlanIdents(run.plan), run.project);
    PermutationDistinct(PlanIdents(run.plan), ordered);
    StatusIsOutcome(run, ordered, results, calls, i);
    StatusIsOutcome(run, ordered, results, calls, j);
  }

  lemma RecordedIsResult(run: Run, ordered: seq<TargetIdent>, results: seq<TargetResult>, calls: seq<seq<Call>>,
                         i: nat, status: RunStatus)
    requires Finished(run, ordered, results, calls) && Distinct(PlanIdents(run.plan)) && i < |results|
    requires Recorded(results, |results|, ordered[i], status)
    ensures results[i].status == status
  {
    StatusIsOutcome(run, ordered, results, calls, i);
    var l :| 0 <= l < |results| && results[l].ident == ordered[i] && results[l].status == status;
    OneResultEach(run, ordered, results, calls, i, l);
  }

  /** With distinct targets, what a turn sees of an upstream target is that target's result. */
  lemma SeenStatus(run: Run, ordered: seq<TargetIdent>, results: seq<TargetResult>, calls: seq<seq<Call>>, k: nat,
                   i: nat)
    requires Finished(run, ordered, results, calls) && Distinct(PlanIdents(run.plan))
    requires i < k < |results|
    ensures ordered[i] in StatusMap(results[..k]) && StatusMap(results[..k])[ordered[i]] == results[i].status
  {
    var before, up := results[..k], ordered[i];
    StatusIsOutcome(run, ordered, results, calls, i);
    StatusMapLast(before, up);
    assert before[i].ident == up && !Absent(before, up);
    var l :| LastWithStatus(before, up, l, StatusMap(before)[up]);
    assert before[l] == results[l];
    OneResultEach(run, ordered, results, calls, i, l);
  }

  lemma BlockedReason(run: Run, ordered: seq<TargetIdent>, results: seq<TargetResult>, calls: seq<seq<Call>>, k: nat)
    returns (j: nat)
    requires ResultAt(run, ordered, results, calls, k) && results[k].status == Blocked
    ensures j < |RefsOf(run, ordered[k])|
    ensures Down(StatusMap(results[..k]), Upstream(ordered[k], RefsOf(run, ordered[k])[j]))
  {
    var refs := RefsOf(run, ordered[k]);
    j :| 0 <= j < |refs| && Down(StatusMap(results[..k]), Upstream(ordered[k], refs[j]));
  }

  lemma DownIsRecorded(results: seq<TargetResult>, k: nat, up: TargetIdent) returns (i: nat)
    requires k <= |results| && Down(StatusMap(results[..k]), up)
    ensures i < k && results[i].ident == up && results[i].status in {Failed, Blocked}
  {
    var before := results[..k];
    StatusMapLast(before, up);
    i :| LastWithStatus(before, up, i, StatusMap(before)[up]);
    assert results[i] == before[i];
  }

  lemma BlockedByUpstream(run: Run, ordered: seq<TargetIdent>, results: seq<TargetResult>, calls: seq<seq<Call>>,
                          k: nat)
    returns (i: nat)
    requires Finished(run, ordered, results, calls) && k < |results| && results[k].status == Blocked
    ensures i < k && UpStep(run, ordered[k], ordered[i]) && results[i].status in {Failed, Blocked}
  {
    assert ResultAt(run, ordered, results, calls, k);
    var j := BlockedReason(run, ordered, results, calls, k);
    i := DownIsRecorded(results, k, Upstream(ordered[k], RefsOf(run, ordered[k])[j]));
    PlannedTurn(run, ordered, results, calls, i);
    StatusIsOutcome(run, ordered, results, calls, i);
    assert UpStepBy(run, ordered[k], ordered[i], j);
  }

  lemma PlannedTurn(run: Run, ordered: seq<TargetIdent>, results: seq<TargetResult>, calls: seq<seq<Call>>, i: nat)
    requires ValidRun(run, ordered, results, calls) && i < |results|
    ensures results[i].ident == ordered[i] && InPlan(run.plan, ordered[i])
  {
    assert ResultAt(run, ordered, results, calls, i);
  }

  lemma UpstreamBlocks(run: Run, ordered: seq<TargetIdent>, results: seq<TargetResult>, calls: seq<seq<Call>>, k: nat,
                       i: nat)
    requires Finished(run, ordered, results, calls) && Distinct(PlanIdents(run.plan))
    requires i < k < |results| && UpStep(run, ordered[k], ordered[i]) && results[i].status in {Failed, Blocked}
    ensures results[k].status == Blocked
  {
    assert ResultAt(run, ordered, results, calls, k);
    var refs, statuses := RefsOf(run, ordered[k]), StatusMap(results[..k]);
    var j :| 0 <= j < |refs| && Upstream(ordered[k], refs[j]) == ordered[i];
    SeenStatus(run, ordered, results, calls, k, i);
    assert Down(statuses, Upstream(ordered[k], refs[j]));
  }

  lemma UpStepTurn(run: Run, ordered: seq<TargetIdent>, results: seq<TargetResult>, calls: seq<seq<Call>>, k: nat,
                   up: TargetIdent)
    returns (i: nat)
    requires Finished(run, ordered, results, calls) && k < |ordered| && UpStep(run, ordered[k], up)
    ensures i < k && ordered[i] == up
  {
    var j :| 0 <= j < |RefsOf(run, ordered[k])| && Upstream(ordered[k], RefsOf(run, ordered[k])[j]) == up;
    UpstreamTurnsFirst(run, ordered, results, calls, k, j);
    i :| 0 <= i < |ordered| && ordered[i] == up;
  }

  lemma {:induction false} BlockedHasChain(run: Run, ordered: seq<TargetIdent>, results: seq<TargetResult>,
                                           calls: seq<seq<Call>>, k: nat) returns (p: seq<TargetIdent>)
    requires Finished(run, ordered, results, calls) && Distinct(PlanIdents(run.plan)) && k < |results|
    requires results[k].status == Blocked
    ensures FailedChain(run, results, ordered[k], p)
    decreases k
  {
    var i := BlockedByUpstream(run, ordered, results, calls, k);
    StatusIsOutcome(run, ordered, results, calls, i);
    if results[i].status == Failed {
      p := [ordered[k], ordered[i]];
    } else {
      var q := BlockedHasChain(run, ordered, results, calls, i);
      UpChainCons(run, ordered[k], q);
      p := [ordered[k]] + q;
    }
  }

  lemma {:induction false} ChainBlocks(run: Run, ordered: seq<TargetIdent>, results: seq<TargetResult>,
                                       calls: seq<seq<Call>>, k: nat, p: seq<TargetIdent>)
    requires Finished(run, ordered, results, calls) && Distinct(PlanIdents(run.plan)) && k < |results|
    requires FailedChain(run, results, ordered[k], p)
    ensures results[k].status == Blocked
    decreases k
  {
    FailedChainTail(run, results, ordered[k], p);
    var i := UpStepTurn(run, ordered, results, calls, k, p[1]);
    if |p| == 2 {
      RecordedIsResult(run, ordered, results, calls, i, Failed);
    } else {
      ChainBlocks(run, ordered, results, calls, i, p[1..]);
    }
    UpstreamBlocks(run, ordered, results, calls, k, i);
  }

  /** A target is blocked exactly when a chain of planned targets in its cloud and region
      leads up to one that failed, and then the runner is never called on it. */
  lemma BlockedExactlyBelowFailure(run: Run, ordered: seq<TargetIdent>, results: seq<TargetResult>,
                                   calls: seq<seq<Call>>, k: nat)
    requires Finished(run, ordered, results, calls) && Distinct(PlanIdents(run.plan)) && k < |results|
    ensures results[k].status == Blocked <==> exists p :: FailedChain(run, results, ordered[k], p)
    ensures results[k].status == Blocked ==> calls[k] == []
  {
    assert ResultAt(run, ordered, results, calls, k);
    if results[k].status == Blocked {
      var p := BlockedHasChain(run, ordered, results, calls, k);
    }
    if p :| FailedChain(run, results, ordered[k], p) {
      ChainBlocks(run, ordered, results, calls, k, p);
    }
  }

  /** Everything upstream of a target that succeeded is planned and succeeded too. */
  lemma SucceededIsUpwardClosed(run: Run, ordered: seq<TargetIdent>, results: seq<TargetResult>,
                                calls: seq<seq<Call>>, k: nat, j: nat)
    requires Finished(run, ordered, results, calls) && k < |results| && results[k].status == Succeeded
    requires j < |RefsOf(run, ordered[k])|
    ensures var up := Upstream(ordered[k], RefsOf(run, ordered[k])[j]);
            UpStep(run, ordered[k], up) && Recorded(results, k, up, Succeeded)
  {
    assert ResultAt(run, ordered, results, calls, k);
    assert calls[k][1] in calls[k] && calls[k][1].ApplyCall?;
    AppliesOnlyAfterUpstreamSucceeded(run, ordered, results, calls, k, j);
    assert UpStepBy(run, ordered[k], Upstream(ordered[k], RefsOf(run, ordered[k])[j]), j);
  }

  // ---------------------------------------------------------------- what is read and written

  /** `plan[i]` is the last target planned under the identity, the one the index keeps. */
  ghost predicate LastPlanned(plan: seq<TargetPlan>, t: TargetIdent, i: int) {
    0 <= i < |plan| && plan[i].ident == t && forall l :: i < l < |plan| ==> plan[l].ident != t
  }

  lemma {:induction false} IndexKeepsLast(plan: seq<TargetPlan>, t: TargetIdent, i: nat)
    requires LastPlanned(plan, t, i)
    ensures t in IndexTargets(plan) && IndexTargets(plan)[t] == plan[i]
  {
    if i < |plan| - 1 {
      var init := plan[..|plan| - 1];
      assert plan[|plan| - 1].ident != t;
      assert LastPlanned(init, t, i);
      IndexKeepsLast(init, t, i);
    }
  }

  /** A reference is answered from the state file in the directory of the upstream target
      planned in the dependent's cloud and region, by the value found under the very output
      referred to; each thing that can be wrong with it has its own error. */
  lemma ReadRefAnswers(run: Run, ident: TargetIdent, ref: Ref, k: nat, j: nat, i: nat)
    requires LastPlanned(run.plan, TargetIdent(ref.component, ident.cloud, ident.region), i)
    ensures var file, r := run.world.read(k, j, run.plan[i].dir), ReadRef(run, ident, ref, k, j);
            && (r == Err(StateUnreadable) <==> file == Unreadable || file == Unparsable)
            && (r == Err(OutputMissing) <==> file.Parsed? && ref.output !in file.outputs)
            && (r == Err(FormatFailed) <==> file.Parsed? && (ref.output, None) in file.outputs.Items)
            && (forall v :: r == Ok(v) <==> file.Parsed? && (ref.output, Some(v)) in file.outputs.Items)
  {
    IndexKeepsLast(run.plan, Upstream(ident, ref), i);
  }

  lemma UnplannedIsUnsupported(run: Run, ident: TargetIdent, ref: Ref, k: nat, j: nat)
    ensures ReadRef(run, ident, ref, k, j) == Err(CrossTargetUnsupported) <==>
            !InPlan(run.plan, TargetIdent(ref.component, ident.cloud, ident.region))
  {
  }

  /** With legal names and built-in outputs, Plan is called with, under the variable of each
      reference, a value just read for that component and output. */
  lemma PlansWithOwnOutputs(run: Run, ordered: seq<TargetIdent>, results: seq<TargetResult>, calls: seq<seq<Call>>,
                            k: nat, j: nat)
    returns (i: nat)
    requires ValidRun(run, ordered, results, calls) && k < |results| && calls[k] != []
    requires j < |RefsOf(run, ordered[k])|
    requires forall ref :: ref in RefsOf(run, ordered[k]) ==>
               LegalName(ref.component) && ref.output in DefaultOutputs()
    ensures var refs := RefsOf(run, ordered[k]);
            && i < |refs| && refs[i] == refs[j]
            && calls[k][0].PlanCall? && RefVar(refs[j]) in calls[k][0].vars
            && ReadRef(run, ordered[k], refs[i], k, i) == Ok(calls[k][0].vars[RefVar(refs[j])])
  {
    assert ResultAt(run, ordered, results, calls, k);
    var refs, vars := RefsOf(run, ordered[k]), calls[k][0].vars;
    var values :| |values| == |refs| && AllRead(run, ordered[k], refs, k, values) &&
                  VarsFor(RefVars(refs), values, vars);
    VarsCarryTheirOwnOutput(refs, values, vars, j);
    i :| Carries(RefVars(refs), values, vars, RefVar(refs[j]), i) && refs[i] == refs[j];
  }

  /** Each result goes by the identifier its target has in the plan. */
  lemma ResultsKeepTargetIds(run: Run, ordered: seq<TargetIdent>, results: seq<TargetResult>, calls: seq<seq<Call>>,
                             k: nat, i: nat)
    requires ValidRun(run, ordered, results, calls) && k < |results| && LastPlanned(run.plan, ordered[k], i)
    ensures results[k].targetId == run.plan[i].targetId
  {
    assert ResultAt(run, ordered, results, calls, k);
    IndexKeepsLast(run.plan, ordered[k], i);
  }

  // ---------------------------------------------------------------- outcomes

  ghost predicate PlanCalled(calls: seq<Call>) {
    exists call :: call in calls && call.PlanCall?
  }

  /** What a turn records can be read off its calls and the runner's answers: it has succeeded
      exactly when Apply was called and went well, Apply is called exactly when Plan was and went
      well, always last and after Plan, and a turn whose Plan or Apply went wrong has failed. */
  lemma StatusFromCalls(run: Run, ordered: seq<TargetIdent>, results: seq<TargetResult>, calls: seq<seq<Call>>, k: nat)
    requires ValidRun(run, ordered, results, calls) && k < |results|
    ensures results[k].status == Succeeded <==> ApplyCall(ordered[k]) in calls[k] && run.world.applyOk(k)
    ensures ApplyCall(ordered[k]) in calls[k] <==> PlanCalled(calls[k]) && run.world.planOk(k)
    ensures PlanCalled(calls[k]) && !(run.world.planOk(k) && run.world.applyOk(k)) ==> results[k].status == Failed
    ensures PlanCalled(calls[k]) ==> calls[k][0].PlanCall? && calls[k][0].ident == ordered[k]
    ensures forall i :: 0 < i < |calls[k]| ==> i == 1 && calls[k][i] == ApplyCall(ordered[k])
  {
    assert ResultAt(run, ordered, results, calls, k);
    var turn := calls[k];
    if turn != [] {
      assert turn[0] in turn;
      assert |turn| == 2 ==> turn[1] in turn;
    }
  }

  /** Every answer that turn `k` can ask for is good. */
  ghost predicate AnswersGood(run: Run, ordered: seq<TargetIdent>, k: int) {
    0 <= k < |ordered| && CanRead(run, ordered[k], RefsOf(run, ordered[k]), k)
      && run.world.planOk(k) && run.world.applyOk(k)
  }

  lemma {:induction false} NothingDown(run: Run, ordered: seq<TargetIdent>, results: seq<TargetResult>,
                                       calls: seq<seq<Call>>, k: nat)
    requires ValidRun(run, ordered, results, calls) && k <= |results|
    requires forall i :: 0 <= i < k ==> AnswersGood(run, ordered, i)
    ensures forall i :: 0 <= i < k ==> results[i].status == Succeeded
    ensures forall t :: t in StatusMap(results[..k]) ==> StatusMap(results[..k])[t] == Succeeded
  {
    if k > 0 {
      NothingDown(run, ordered, results, calls, k - 1);
      GoodTurnSucceeds(run, ordered, results, calls, k - 1);
      StatusMapNext(results, k - 1);
    }
  }

  lemma GoodTurnSucceeds(run: Run, ordered: seq<TargetIdent>, results: seq<TargetResult>, calls: seq<seq<Call>>,
                         k: nat)
    requires ValidRun(run, ordered, results, calls) && k < |results| && AnswersGood(run, ordered, k)
    requires forall t :: t in StatusMap(results[..k]) ==> StatusMap(results[..k])[t] == Succeeded
    ensures results[k].status == Succeeded
  {
    assert ResultAt(run, ordered, results, calls, k);
  }

  lemma StatusMapNext(results: seq<TargetResult>, k: nat)
    requires k < |results|
    ensures StatusMap(results[..k + 1]) == StatusMap(results[..k])[results[k].ident := results[k].status]
  {
    assert results[..k + 1][..k] == results[..k];
  }

  /** All targets succeed exactly when every read, Plan and Apply of every turn does. */
  lemma SucceedsIffAllGood(run: Run, ordered: seq<TargetIdent>, results: seq<TargetResult>, calls: seq<seq<Call>>)
    requires ValidRun(run, ordered, results, calls) && |results| == |ordered|
    ensures !Any(results, {Failed, Reverted, Skipped, Blocked})
        <==> forall k :: 0 <= k < |ordered| ==> AnswersGood(run, ordered, k)
  {
    if forall k :: 0 <= k < |ordered| ==> AnswersGood(run, ordered, k) {
      NothingDown(run, ordered, results, calls, |results|);
    }
    if !Any(results, {Failed, Reverted, Skipped, Blocked}) {
      forall k | 0 <= k < |ordered|
        ensures AnswersGood(run, ordered, k)
      {
        StatusIsOutcome(run, ordered, results, calls, k);
        assert ResultAt(run, ordered, results, calls, k);
      }
    }
  }

  lemma SummaryOfOutcomes(results: seq<TargetResult>)
    requires forall i :: 0 <= i < |results| ==> results[i].status in {Succeeded, Failed, Blocked}
    ensures !Any(results, {Failed, Reverted, Skipped, Blocked})
        <==> forall i :: 0 <= i < |results| ==> results[i].status == Succeeded
    ensures Any(results, {Failed, Reverted, Skipped, Blocked}) && !Any(results, {Succeeded}) <==>
            results != [] && forall i :: 0 <= i < |results| ==> results[i].status != Succeeded
  {
    if results != [] && forall i :: 0 <= i < |results| ==> results[i].status != Succeeded {
      assert results[0].status in {Failed, Reverted, Skipped, Blocked};
    }
  }

  /** One result per plan target, in dependency order; and the overall status is succeeded
      exactly when every target succeeded, failed exactly when there are targets and none did. */
  lemma ResultsCoverPlan(run: Run, ordered: seq<TargetIdent>, results: seq<TargetResult>, calls: seq<seq<Call>>)
    requires TargetSpec(PlanIdents(run.plan), run.project) == Ok(ordered)
    requires ValidRun(run, ordered, results, calls) && |results| == |ordered|
    ensures Idents(results) == ordered && multiset(ordered) == multiset(PlanIdents(run.plan))
    ensures !Any(results, {Failed, Reverted, Skipped, Blocked})
        <==> forall i :: 0 <= i < |results| ==> results[i].status == Succeeded
    ensures Any(results, {Failed, Reverted, Skipped, Blocked}) && !Any(results, {Succeeded}) <==>
            results != [] && forall i :: 0 <= i < |results| ==> results[i].status != Succeeded
  {
    TargetsDependencyFirst(PlanIdents(run.plan), run.project);
    forall i | 0 <= i < |results|
      ensures results[i].status in {Succeeded, Failed, Blocked} && results[i].ident == ordered[i]
    {
      StatusIsOutcome(run, ordered, results, calls, i);
    }
    SummaryOfOutcomes(results);
  }
}

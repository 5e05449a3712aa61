/** `applyToposorted`: one pass over the targets in dependency order, against an arbitrary
    runner. A target is skipped once something it refers to has failed. */
module ApplyOrdered {
  import opened Order
  import opened Components
  import opened Results
  import opened Targets
  import opened VarNames

  datatype TargetPlan = TargetPlan(targetId: string, ident: TargetIdent, dir: string)

  /** What reading and parsing a state file yields: each output with its HCL form, which
      `FormatHCLValue` may fail to produce. */
  datatype StateFile = Unreadable | Unparsable | Parsed(outputs: map<string, Option<string>>)

  /** The world, free to answer differently at every call: the state file found at turn `k`
      for the `j`-th reference, and the runner's answers to Plan and Apply at turn `k`. */
  datatype World = World(read: (nat, nat, string) -> StateFile, planOk: nat -> bool, applyOk: nat -> bool)

  datatype VarError = CrossTargetUnsupported | StateUnreadable | OutputMissing | FormatFailed

  /** A call to the runner. */
  datatype Call = PlanCall(ident: TargetIdent, vars: map<string, string>) | ApplyCall(ident: TargetIdent)

  /** What one run works on. */
  datatype Run = Run(plan: seq<TargetPlan>, project: seq<Component>, world: World)

  // ---------------------------------------------------------------- variables

  function IndexTargets(plan: seq<TargetPlan>): (m: map<TargetIdent, TargetPlan>)
    ensures forall t :: t in m <==> InPlan(plan, t)
  {
    if plan == [] then
      map[]
    else
      var init, last := plan[..|plan| - 1], plan[|plan| - 1];
      assert forall t :: InPlan(plan, t) <==> InPlan(init, t) || t == last.ident by {
        forall t | InPlan(plan, t) && t != last.ident
          ensures InPlan(init, t)
        {
          var i :| 0 <= i < |plan| && plan[i].ident == t;
          assert init[i] == plan[i];
        }
        assert forall i :: 0 <= i < |init| ==> plan[i] == init[i];
        assert plan[|plan| - 1] == last;
      }
      IndexTargets(init)[last.ident := last]
  }

  ghost predicate InPlan(plan: seq<TargetPlan>, t: TargetIdent) {
    exists i :: 0 <= i < |plan| && plan[i].ident == t
  }

  function Upstream(ident: TargetIdent, ref: Ref): TargetIdent {
    ident.(component := ref.component)
  }

  /** The state file that answers `ref` at turn `k`, if its target is planned at all. */
  function FileFor(run: Run, ident: TargetIdent, ref: Ref, k: nat, j: nat): Option<StateFile> {
    var byIdent, up := IndexTargets(run.plan), Upstream(ident, ref);
    if up in byIdent then Some(run.world.read(k, j, byIdent[up].dir)) else None
  }

  /** Why a reference yields no value, if it does not. */
  function Fault(file: Option<StateFile>, output: string): Option<VarError> {
    if file.None? then Some(CrossTargetUnsupported)
    else if !file.value.Parsed? then Some(StateUnreadable)
    else if output !in file.value.outputs then Some(OutputMissing)
    else if file.value.outputs[output].None? then Some(FormatFailed)
    else None
  }

  /** The HCL value `ref` reads at turn `k`, or what goes wrong. */
  function ReadRef(run: Run, ident: TargetIdent, ref: Ref, k: nat, j: nat): Result<string, VarError> {
    var file := FileFor(run, ident, ref, k, j);
    match Fault(file, ref.output)
    case Some(fault) => Err(fault)
    case None => Ok(file.value.outputs[ref.output].value)
  }

  ghost predicate AllRead(run: Run, ident: TargetIdent, refs: seq<Ref>, k: nat, values: seq<string>) {
    |values| <= |refs| && forall j :: 0 <= j < |values| ==> ReadRef(run, ident, refs[j], k, j) == Ok(values[j])
  }

  function RefVar(ref: Ref): string {
    VarName(ref.component, ref.output)
  }

  function RefVars(refs: seq<Ref>): (r: seq<string>)
    ensures |r| == |refs| && forall j :: 0 <= j < |r| ==> r[j] == RefVar(refs[j])
  {
    seq(|refs|, j requires 0 <= j < |refs| => RefVar(refs[j]))
  }

  /** `vars[name]` is the last of the values that go by that name. */
  ghost predicate Carries(names: seq<string>, values: seq<string>, vars: map<string, string>, name: string, j: int) {
    && 0 <= j < |values| <= |names| && names[j] == name && name in vars && vars[name] == values[j]
    && forall i :: j < i < |values| ==> names[i] != name
  }

  ghost predicate Carried(names: seq<string>, values: seq<string>, vars: map<string, string>, name: string) {
    exists j :: Carries(names, values, vars, name, j)
  }

  ghost predicate VarsFor(names: seq<string>, values: seq<string>, vars: map<string, string>) {
    && |values| <= |names|
    && (forall j :: 0 <= j < |values| ==> names[j] in vars)
    && (forall name :: name in vars ==> Carried(names, values, vars, name))
  }

  lemma CarriedNext(names: seq<string>, values: seq<string>, vars: map<string, string>, value: string, name: string)
    requires |values| < |names| && (name == names[|values|] || Carried(names, values, vars, name))
    ensures Carried(names, values + [value], vars[names[|values|] := value], name)
  {
    var now, more := values + [value], vars[names[|values|] := value];
    if name == names[|values|] {
      assert Carries(names, now, more, name, |values|);
    } else {
      var i :| Carries(names, values, vars, name, i);
      assert Carries(names, now, more, name, i);
    }
  }

  lemma VarsNext(names: seq<string>, values: seq<string>, vars: map<string, string>, value: string)
    requires VarsFor(names, values, vars) && |values| < |names|
    ensures VarsFor(names, values + [value], vars[names[|values|] := value])
  {
    var more := vars[names[|values|] := value];
    forall name | name in more
      ensures Carried(names, values + [value], more, name)
    {
      CarriedNext(names, values, vars, value, name);
    }
  }

  /** The first reference that cannot be read, and why. */
  ghost predicate FirstFault(run: Run, ident: TargetIdent, refs: seq<Ref>, k: nat, j: int, error: VarError) {
    && 0 <= j < |refs| && ReadRef(run, ident, refs[j], k, j) == Err(error)
    && forall i :: 0 <= i < j ==> ReadRef(run, ident, refs[i], k, i).Ok?
  }

  lemma ReadNext(run: Run, ident: TargetIdent, refs: seq<Ref>, k: nat, values: seq<string>, value: string)
    requires AllRead(run, ident, refs, k, values) && |values| < |refs|
    requires ReadRef(run, ident, refs[|values|], k, |values|) == Ok(value)
    ensures AllRead(run, ident, refs, k, values + [value])
  {
  }

  lemma FaultFound(run: Run, ident: TargetIdent, refs: seq<Ref>, k: nat, values: seq<string>, error: VarError)
    requires AllRead(run, ident, refs, k, values) && |values| < |refs|
    requires ReadRef(run, ident, refs[|values|], k, |values|) == Err(error)
    ensures exists j :: FirstFault(run, ident, refs, k, j, error)
  {
    assert FirstFault(run, ident, refs, k, |values|, error);
  }

  /** `buildRealVars`: fails on the first reference without a value. */
  method BuildRealVars(run: Run, ident: TargetIdent, refs: seq<Ref>, k: nat)
    returns (r: Result<map<string, string>, VarError>, ghost values: seq<string>)
    ensures r.Ok? ==>
              |values| == |refs| && AllRead(run, ident, refs, k, values) && VarsFor(RefVars(refs), values, r.value)
    ensures r.Err? ==> exists j :: FirstFault(run, ident, refs, k, j, r.error)
  {
    var vars: map<string, string> := map[];
    var names := RefVars(refs);
    values := [];
    for j := 0 to |refs|
      invariant |values| == j && AllRead(run, ident, refs, k, values)
      invariant VarsFor(names, values, vars)
    {
      var read := ReadRef(run, ident, refs[j], k, j);
      if read.Err? {
        FaultFound(run, ident, refs, k, values, read.error);
        return Err(read.error), values;
      }
      VarsNext(names, values, vars, read.value);
      ReadNext(run, ident, refs, k, values, read.value);
      vars := vars[names[j] := read.value];
      values := values + [read.value];
    }
    return Ok(vars), values;
  }

  /** With legal component names and the built-in outputs no variable is overwritten by the
      value of a different component or output. */
  lemma VarsCarryTheirOwnOutput(refs: seq<Ref>, values: seq<string>, vars: map<string, string>, j: nat)
    requires VarsFor(RefVars(refs), values, vars) && j < |refs| == |values|
    requires forall i :: 0 <= i < |refs| ==> LegalName(refs[i].component) && refs[i].output in DefaultOutputs()
    ensures exists i :: Carries(RefVars(refs), values, vars, RefVar(refs[j]), i) && refs[i] == refs[j]
  {
    var name := RefVars(refs)[j];
    assert Carried(RefVars(refs), values, vars, name);
    var i :| Carries(RefVars(refs), values, vars, name, i);
    SameVarSameRef(refs[i], refs[j]);
  }

  lemma SameVarSameRef(a: Ref, b: Ref)
    requires LegalName(a.component) && a.output in DefaultOutputs()
    requires LegalName(b.component) && b.output in DefaultOutputs()
    requires RefVar(a) == RefVar(b)
    ensures a == b
  {
    DefaultVarNamesInjective(a.component, a.output, b.component, b.output);
  }

  // ---------------------------------------------------------------- one turn

  /** `findComponent`: the first declaration of the name, or the zero component. */
  function FindComponent(cs: seq<Component>, name: string): Component {
    if cs == [] then Component("", "", [], [])
    else if cs[0].name == name then cs[0]
    else FindComponent(cs[1..], name)
  }

  /** `statusByIdent` after the given results: the latest status of each target. */
  function StatusMap(results: seq<TargetResult>): map<TargetIdent, RunStatus> {
    if results == [] then map[]
    else StatusMap(results[..|results| - 1])[results[|results| - 1].ident := results[|results| - 1].status]
  }

  predicate Down(statuses: map<TargetIdent, RunStatus>, up: TargetIdent) {
    up in statuses && (statuses[up] == Failed || statuses[up] == Blocked)
  }

  ghost predicate UpstreamDown(statuses: map<TargetIdent, RunStatus>, ident: TargetIdent, refs: seq<Ref>) {
    exists j :: 0 <= j < |refs| && Down(statuses, Upstream(ident, refs[j]))
  }

  ghost predicate CanRead(run: Run, ident: TargetIdent, refs: seq<Ref>, k: nat) {
    forall j :: 0 <= j < |refs| ==> ReadRef(run, ident, refs[j], k, j).Ok?
  }

  function RefsOf(run: Run, ident: TargetIdent): seq<Ref> {
    FindComponent(run.project, ident.component).refs
  }

  ghost predicate ReachesPlan(run: Run, statuses: map<TargetIdent, RunStatus>, ident: TargetIdent, k: nat) {
    !UpstreamDown(statuses, ident, RefsOf(run, ident)) && CanRead(run, ident, RefsOf(run, ident), k)
  }

  ghost predicate ReachesApply(run: Run, statuses: map<TargetIdent, RunStatus>, ident: TargetIdent, k: nat) {
    ReachesPlan(run, statuses, ident, k) && run.world.planOk(k)
  }

  ghost function StatusAt(run: Run, statuses: map<TargetIdent, RunStatus>, ident: TargetIdent, k: nat): RunStatus {
    if UpstreamDown(statuses, ident, RefsOf(run, ident)) then Blocked
    else if ReachesApply(run, statuses, ident, k) && run.world.applyOk(k) then Succeeded
    else Failed
  }

  /** The runner calls of one turn: a re-plan with the values just read, then an apply if
      the plan succeeded. */
  ghost predicate TurnCalls(run: Run, statuses: map<TargetIdent, RunStatus>, ident: TargetIdent, k: nat,
                            calls: seq<Call>) {
    if !ReachesPlan(run, statuses, ident, k) then
      calls == []
    else
      && |calls| == (if run.world.planOk(k) then 2 else 1)
      && calls[0].PlanCall? && calls[0].ident == ident && PlannedWith(run, ident, k, calls[0].vars)
      && (run.world.planOk(k) ==> calls[1] == ApplyCall(ident))
  }

  ghost predicate PlannedWith(run: Run, ident: TargetIdent, k: nat, vars: map<string, string>) {
    exists values :: |values| == |RefsOf(run, ident)| && AllRead(run, ident, RefsOf(run, ident), k, values) &&
                     VarsFor(RefVars(RefsOf(run, ident)), values, vars)
  }

  method CheckUpstream(statuses: map<TargetIdent, RunStatus>, ident: TargetIdent, refs: seq<Ref>) returns (down: bool)
    ensures down <==> UpstreamDown(statuses, ident, refs)
  {
    down := false;
    for j := 0 to |refs|
      invariant !down && forall i :: 0 <= i < j ==> !Down(statuses, Upstream(ident, refs[i]))
    {
      if Down(statuses, Upstream(ident, refs[j])) {
        return true;
      }
    }
  }

  method ApplyTarget(run: Run, statuses: map<TargetIdent, RunStatus>, ident: TargetIdent, k: nat)
    returns (status: RunStatus, calls: seq<Call>)
    ensures status == StatusAt(run, statuses, ident, k)
    ensures TurnCalls(run, statuses, ident, k, calls)
    ensures status == Succeeded <==> ApplyCall(ident) in calls && run.world.applyOk(k)
  {
    var refs := FindComponent(run.project, ident.component).refs;
    var down := CheckUpstream(statuses, ident, refs);
    if down {
      return Blocked, [];
    }
    var vars, values := BuildRealVars(run, ident, refs, k);
    if vars.Err? {
      return Failed, [];
    }
    assert CanRead(run, ident, refs, k) by {
      assert forall j :: 0 <= j < |refs| ==> ReadRef(run, ident, refs[j], k, j) == Ok(values[j]);
    }
    assert PlannedWith(run, ident, k, vars.value);
    calls := [PlanCall(ident, vars.value)];
    if !run.world.planOk(k) {
      return Failed, calls;
    }
    calls := calls + [ApplyCall(ident)];
    if !run.world.applyOk(k) {
      return Failed, calls;
    }
    return Succeeded, calls;
  }

  // ---------------------------------------------------------------- the run

  ghost predicate ResultAt(run: Run, ordered: seq<TargetIdent>, results: seq<TargetResult>, calls: seq<seq<Call>>,
                           k: int) {
    && 0 <= k < |results| && k < |ordered| && k < |calls|
    && results[k].ident == ordered[k]
    && ordered[k] in IndexTargets(run.plan) && results[k].targetId == IndexTargets(run.plan)[ordered[k]].targetId
    && results[k].status == StatusAt(run, StatusMap(results[..k]), ordered[k], k)
    && TurnCalls(run, StatusMap(results[..k]), ordered[k], k, calls[k])
  }

  /** One result and one list of runner calls per turn, each what that turn must produce from
      the statuses recorded before it. */
  ghost predicate ValidRun(run: Run, ordered: seq<TargetIdent>, results: seq<TargetResult>, calls: seq<seq<Call>>) {
    && |results| == |calls| <= |ordered|
    && forall k :: 0 <= k < |results| ==> ResultAt(run, ordered, results, calls, k)
  }

  lemma RunNext(run: Run, ordered: seq<TargetIdent>, results: seq<TargetResult>, calls: seq<seq<Call>>,
                result: TargetResult, turn: seq<Call>)
    requires ValidRun(run, ordered, results, calls) && |results| < |ordered|
    requires result.ident == ordered[|results|] && result.ident in IndexTargets(run.plan)
    requires result.targetId == IndexTargets(run.plan)[result.ident].targetId
    requires result.status == StatusAt(run, StatusMap(results), ordered[|results|], |results|)
    requires TurnCalls(run, StatusMap(results), ordered[|results|], |results|, turn)
    ensures ValidRun(run, ordered, results + [result], calls + [turn])
    ensures StatusMap(results + [result]) == StatusMap(results)[result.ident := result.status]
  {
    var more, log := results + [result], calls + [turn];
    assert more[..|results|] == results;
    forall k | 0 <= k < |more|
      ensures ResultAt(run, ordered, more, log, k)
    {
      if k < |results| {
        ResultStays(run, ordered, results, calls, result, turn, k);
      }
    }
  }

  lemma ResultStays(run: Run, ordered: seq<TargetIdent>, results: seq<TargetResult>, calls: seq<seq<Call>>,
                    result: TargetResult, turn: seq<Call>, k: nat)
    requires ResultAt(run, ordered, results, calls, k)
    ensures ResultAt(run, ordered, results + [result], calls + [turn], k)
  {
    assert (results + [result])[..k] == results[..k];
  }

  method ApplyToposorted(run: Run)
    returns (r: Result<(ApplyStatus, seq<TargetResult>), OrderError>, calls: seq<seq<Call>>)
    ensures r.Ok? <==> TargetSpec(PlanIdents(run.plan), run.project).Ok?
    ensures r.Ok? ==> var ordered, results := TargetSpec(PlanIdents(run.plan), run.project).value, r.value.1;
                      && ValidRun(run, ordered, results, calls) && |results| == |ordered|
                      && (r.value.0 == ApplySucceeded <==> !Any(results, {Failed, Reverted, Skipped, Blocked}))
                      && (r.value.0 == ApplyFailed
                          <==> Any(results, {Failed, Reverted, Skipped, Blocked}) && !Any(results, {Succeeded}))
    ensures r.Err? ==> calls == []
  {
    calls := [];
    var sorted := ToposortTargets(PlanIdents(run.plan), run.project);
    if sorted.Err? {
      return Err(sorted.error), calls;
    }
    var ordered := sorted.value;
    var byIdent := IndexTargets(run.plan);
    OrderedInPlan(run.plan, run.project);
    var statuses: map<TargetIdent, RunStatus> := map[];
    var results: seq<TargetResult> := [];
    for k := 0 to |ordered|
      invariant |results| == k && ValidRun(run, ordered, results, calls)
      invariant statuses == StatusMap(results)
    {
      var ident := ordered[k];
      assert ident in ordered && ident in byIdent;
      var status, turn := ApplyTarget(run, statuses, ident, k);
      var result := TargetResult(byIdent[ident].targetId, ident, status);
      RunNext(run, ordered, results, calls, result, turn);
      statuses := statuses[ident := status];
      results := results + [result];
      calls := calls + [turn];
    }
    var summary := Summarize(results);
    return Ok((summary, results)), calls;
  }

  function PlanIdents(plan: seq<TargetPlan>): (r: seq<TargetIdent>)
    ensures |r| == |plan| && forall i :: 0 <= i < |r| ==> r[i] == plan[i].ident
  {
    seq(|plan|, i requires 0 <= i < |plan| => plan[i].ident)
  }

  lemma OrderedInPlan(plan: seq<TargetPlan>, project: seq<Component>)
    requires TargetSpec(PlanIdents(plan), project).Ok?
    ensures forall t :: t in TargetSpec(PlanIdents(plan), project).value <==> t in IndexTargets(plan)
  {
    var idents := PlanIdents(plan);
    TargetsDependencyFirst(idents, project);
    SameElements(TargetSpec(idents, project).value, idents);
    forall t
      ensures t in idents <==> InPlan(plan, t)
    {
      if t in idents {
        var i :| 0 <= i < |idents| && idents[i] == t;
        assert plan[i].ident == t;
      }
    }
  }
}

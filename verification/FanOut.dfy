/** The path without a project: components rebuilt from the plan, each run by `runComponent`
    with one goroutine per target and a wait group, as a step machine over every interleaving. */
module FanOut {
  import opened Order
  import opened RefGraph
  import opened Components
  import opened Results
  import opened Toposort
  import opened Targets
  import opened ApplyOrdered
  import opened Planning
  import opened Destroy

  // ---------------------------------------------------------------- componentsFromPlan

  /** Component names in the order the plan first mentions them. */
  function FirstNames(ts: seq<TargetIdent>): (r: seq<string>)
    ensures Distinct(r)
    ensures forall n :: n in r <==> exists i :: 0 <= i < |ts| && ts[i].component == n
  {
    if ts == [] then []
    else
      var init, last := ts[..|ts| - 1], ts[|ts| - 1];
      var names := FirstNames(init);
      var r := if last.component in names then names else names + [last.component];
      assert forall n :: n in r <==> n in names || n == last.component;
      r
  }

  /** The clouds and regions the plan lists for `name`, in plan order. */
  function TargetsNamed(ts: seq<TargetIdent>, name: string): seq<Target> {
    if ts == [] then []
    else
      var last := ts[|ts| - 1];
      TargetsNamed(ts[..|ts| - 1], name) + if last.component == name then [Target(last.cloud, last.region)] else []
  }

  function Group(ts: seq<TargetIdent>, name: string): Component {
    Component(name, "", TargetsNamed(ts, name), [])
  }

  function Groups(ts: seq<TargetIdent>): (r: seq<Component>)
    ensures |r| == |FirstNames(ts)| && forall i :: 0 <= i < |r| ==> r[i] == Group(ts, FirstNames(ts)[i])
  {
    seq(|FirstNames(ts)|, i requires 0 <= i < |FirstNames(ts)| => Group(ts, FirstNames(ts)[i]))
  }

  method CollectNames(ts: seq<TargetIdent>) returns (names: seq<string>)
    ensures names == FirstNames(ts)
  {
    var seen: set<string> := {};
    names := [];
    for i := 0 to |ts|
      invariant names == FirstNames(ts[..i])
      invariant forall n :: n in seen <==> n in names
    {
      assert ts[..i + 1][..i] == ts[..i];
      if ts[i].component !in seen {
        seen := seen + {ts[i].component};
        names := names + [ts[i].component];
      }
    }
    assert ts[..|ts|] == ts;
  }

  method CollectTargetsNamed(ts: seq<TargetIdent>, name: string) returns (targets: seq<Target>)
    ensures targets == TargetsNamed(ts, name)
  {
    targets := [];
    for i := 0 to |ts|
      invariant targets == TargetsNamed(ts[..i], name)
    {
      assert ts[..i + 1][..i] == ts[..i];
      if ts[i].component == name {
        targets := targets + [Target(ts[i].cloud, ts[i].region)];
      }
    }
    assert ts[..|ts|] == ts;
  }

  method ComponentsFromPlan(plan: seq<TargetPlan>) returns (r: seq<Component>)
    ensures r == Groups(PlanIdents(plan))
  {
    var ts := PlanIdents(plan);
    var names := CollectNames(ts);
    r := [];
    for i := 0 to |names|
      invariant |r| == i && forall k :: 0 <= k < i ==> r[k] == Group(ts, names[k])
    {
      var targets := CollectTargetsNamed(ts, names[i]);
      r := r + [Component(names[i], "", targets, [])];
    }
  }

  /** How many entries of the plan are `t`. */
  function Copies(ts: seq<TargetIdent>, t: TargetIdent): nat {
    multiset(ts)[t]
  }

  lemma {:induction false} GroupCopies(ts: seq<TargetIdent>, name: string, t: TargetIdent)
    ensures Copies(TargetsOf(Group(ts, name)), t) == if t.component == name then Copies(ts, t) else 0
  {
    if ts == [] {
      assert TargetsOf(Group(ts, name)) == [];
    } else {
      var init, last := ts[..|ts| - 1], ts[|ts| - 1];
      GroupCopies(init, name, t);
      assert ts == init + [last];
      var shorter, longer := TargetsOf(Group(init, name)), TargetsOf(Group(ts, name));
      assert longer == shorter + if last.component == name then [last] else [];
    }
  }

  ghost predicate Grouping(ts: seq<TargetIdent>, groups: seq<Component>, names: seq<string>) {
    && |groups| == |names| && Distinct(names)
    && forall i :: 0 <= i < |groups| ==> groups[i] == Group(ts, names[i])
  }

  lemma {:induction false} PrefixCopies(ts: seq<TargetIdent>, groups: seq<Component>, names: seq<string>,
                                        t: TargetIdent)
    requires Grouping(ts, groups, names)
    ensures Copies(AllTargets(groups), t) == if t.component in names then Copies(ts, t) else 0
  {
    if groups != [] {
      var init, last := groups[..|groups| - 1], names[|names| - 1];
      PrefixCopies(ts, init, names[..|names| - 1], t);
      GroupCopies(ts, last, t);
      assert names == names[..|names| - 1] + [last];
      assert last !in names[..|names| - 1];
    }
  }

  /** Regrouping neither drops nor adds a target. */
  lemma GroupsKeepTargets(ts: seq<TargetIdent>)
    ensures multiset(AllTargets(Groups(ts))) == multiset(ts)
  {
    forall t
      ensures Copies(AllTargets(Groups(ts)), t) == Copies(ts, t)
    {
      PrefixCopies(ts, Groups(ts), FirstNames(ts), t);
      if t in ts {
        var i :| 0 <= i < |ts| && ts[i] == t;
        assert t.component in FirstNames(ts);
      } else {
        assert t !in multiset(ts);
      }
    }
    SameCopies(AllTargets(Groups(ts)), ts);
  }

  /** `at` has the places of the targets named `name` among `ts`, in order, and `targets` are
      their clouds and regions. */
  ghost predicate Picked(ts: seq<TargetIdent>, name: string, targets: seq<Target>, at: seq<nat>) {
    && |at| == |targets|
    && (forall k :: 0 <= k < |at| ==>
          at[k] < |ts| && ts[at[k]] == TargetIdent(name, targets[k].cloud, targets[k].region))
    && (forall k, l :: 0 <= k < l < |at| ==> at[k] < at[l])
    && (forall i: nat :: i < |ts| && ts[i].component == name ==> i in at)
  }

  lemma PickedNext(init: seq<TargetIdent>, last: TargetIdent, name: string, targets: seq<Target>, at: seq<nat>)
    requires Picked(init, name, targets, at)
    ensures last.component != name ==> Picked(init + [last], name, targets, at)
    ensures last.component == name ==>
              Picked(init + [last], name, targets + [Target(last.cloud, last.region)], at + [|init|])
  {
  }

  /** A group lists its targets in plan order: `at` says where the plan has each of them. */
  lemma {:induction false} TargetsNamedInOrder(ts: seq<TargetIdent>, name: string) returns (at: seq<nat>)
    ensures Picked(ts, name, TargetsNamed(ts, name), at)
  {
    at := [];
    if ts != [] {
      var init, last := ts[..|ts| - 1], ts[|ts| - 1];
      at := TargetsNamedInOrder(init, name);
      PickedNext(init, last, name, TargetsNamed(init, name), at);
      assert ts == init + [last];
      if last.component == name {
        at := at + [|init|];
      }
    }
  }

  /** Groups come in the order in which the plan first mentions them: an earlier group is
      mentioned before any mention of a later one. */
  lemma {:induction false} FirstNamesInOrder(ts: seq<TargetIdent>, h: nat, k: nat) returns (i: nat)
    requires h < k < |FirstNames(ts)|
    ensures i < |ts| && ts[i].component == FirstNames(ts)[h]
    ensures forall j :: 0 <= j <= i ==> ts[j].component != FirstNames(ts)[k]
  {
    var init := ts[..|ts| - 1];
    if k < |FirstNames(init)| {
      i := FirstNamesInOrder(init, h, k);
    } else {
      assert FirstNames(init)[h] in FirstNames(init);
      i :| 0 <= i < |init| && init[i].component == FirstNames(init)[h];
    }
  }

  lemma SameCopies(a: seq<TargetIdent>, b: seq<TargetIdent>)
    requires forall t :: Copies(a, t) == Copies(b, t)
    ensures multiset(a) == multiset(b)
  {
    assert forall t :: multiset(a)[t] == multiset(b)[t] by {
      forall t
        ensures multiset(a)[t] == multiset(b)[t]
      {
        assert Copies(a, t) == Copies(b, t);
      }
    }
  }

  /** If the plan is in dependency order, so are the groups. */
  lemma {:induction false} FirstNamesOrder(g: Graph<string>, ts: seq<TargetIdent>)
    requires DependencyFirst(g, ts)
    ensures UpstreamFirst(g, FirstNames(ts))
  {
    if ts != [] {
      var init, last := ts[..|ts| - 1], ts[|ts| - 1];
      var names, before := FirstNames(ts), FirstNames(init);
      forall i, j | 0 <= i < |init| && 0 <= j < |init| && Edge(g, init[i].component, init[j].component)
        ensures j < i
      {
        assert Edge(g, ts[i].component, ts[j].component);
      }
      FirstNamesOrder(g, init);
      forall n | n in names
        ensures !Edge(g, n, last.component)
      {
        var i :| 0 <= i < |ts| && ts[i].component == n;
        NothingRefersToLast(g, ts, ts[i]);
      }
      forall i, j | 0 <= i < |names| && 0 <= j < |names| && Edge(g, names[i], names[j])
        ensures j < i
      {
        assert names[i] in names;
        assert j < |before|;
        if i < |before| {
          assert Edge(g, before[i], before[j]);
        }
      }
    }
  }

  // ---------------------------------------------------------------- runComponent

  /** One goroutine of the current component: not yet launched, waiting for the semaphores,
      inside the worker, result written, wait group released. */
  datatype Phase = Idle | Waiting | Working | Written | Exited

  /** `done` holds the results of the components already left; `slots` the result array and
      `waiting` the wait group's counter of the current one. */
  datatype State = State(comp: nat, phases: seq<Phase>, slots: seq<TargetResult>, waiting: int, done: seq<TargetResult>)

  /** The main goroutine launches slots in turn, then waits, then goes on to the next
      component; a slot is refused by the semaphores or runs its worker. */
  datatype Step =
    | Launch(i: nat) | Refuse(i: nat) | Start(i: nat) | Write(i: nat, targetId: string, ok: bool) | Exit(i: nat) | Leave

  function Enter(groups: seq<Component>, comp: nat, done: seq<TargetResult>): State {
    var n := if comp < |groups| then |groups[comp].targets| else 0;
    State(comp, seq(n, _ => Idle), seq(n, _ => TargetResult("", TargetIdent("", "", ""), Queued)), 0, done)
  }

  predicate AllLaunched(s: State) {
    forall i :: 0 <= i < |s.phases| ==> s.phases[i] != Idle
  }

  function Move(s: State, i: nat, p: Phase): State
    requires i < |s.phases|
  {
    s.(phases := s.phases[i := p])
  }

  predicate Enabled(groups: seq<Component>, s: State, step: Step) {
    && s.comp < |groups| && |s.phases| == |s.slots| == |groups[s.comp].targets|
    && match step
       case Launch(i) => i < |s.phases| && s.phases[i] == Idle && forall k :: 0 <= k < i ==> s.phases[k] != Idle
       case Refuse(i) => i < |s.phases| && s.phases[i] == Waiting
       case Start(i) => i < |s.phases| && s.phases[i] == Waiting
       case Write(i, _, _) => i < |s.phases| && s.phases[i] == Working
       case Exit(i) => i < |s.phases| && s.phases[i] == Written
       case Leave => AllLaunched(s) && s.waiting == 0
  }

  function Take(groups: seq<Component>, s: State, step: Step): State
    requires Enabled(groups, s, step)
  {
    var c := groups[s.comp];
    match step
    case Launch(i) => Move(s, i, Waiting).(waiting := s.waiting + 1)
    case Refuse(i) => Move(s, i, Written).(slots := s.slots[i := TargetResult("", Ident(c, c.targets[i]), Failed)])
    case Start(i) => Move(s, i, Working)
    case Write(i, targetId, ok) =>
      var r := TargetResult(targetId, Ident(c, c.targets[i]), if ok then Succeeded else Failed);
      Move(s, i, Written).(slots := s.slots[i := r])
    case Exit(i) => Move(s, i, Exited).(waiting := s.waiting - 1)
    case Leave => Enter(groups, s.comp + 1, s.done + s.slots)
  }

  predicate Live(p: Phase) {
    p != Idle && p != Exited
  }

  /** Goroutines launched and not yet exited. */
  function Active(phases: seq<Phase>): nat {
    if phases == [] then 0
    else Active(phases[..|phases| - 1]) + if Live(phases[|phases| - 1]) then 1 else 0
  }

  lemma {:induction false} ActiveUpdate(phases: seq<Phase>, i: nat, p: Phase)
    requires i < |phases|
    ensures Active(phases[i := p]) ==
            Active(phases) + (if Live(p) then 1 else 0) - if Live(phases[i]) then 1 else 0
  {
    var init := phases[..|phases| - 1];
    if i < |phases| - 1 {
      assert phases[i := p][..|phases| - 1] == init[i := p];
      ActiveUpdate(init, i, p);
    } else {
      assert phases[i := p][..|phases| - 1] == init;
    }
  }

  lemma {:induction false} NoneActive(phases: seq<Phase>)
    requires Active(phases) == 0
    ensures forall i :: 0 <= i < |phases| ==> !Live(phases[i])
  {
    if phases != [] {
      NoneActive(phases[..|phases| - 1]);
    }
  }

  lemma {:induction false} FreshInactive(n: nat)
    ensures Active(seq(n, _ => Idle)) == 0
  {
    if n > 0 {
      assert seq(n, _ => Idle)[..n - 1] == seq(n - 1, _ => Idle);
      FreshInactive(n - 1);
    }
  }

  predicate Finished(r: TargetResult) {
    r.status == Succeeded || r.status == Failed
  }

  predicate AllFinished(results: seq<TargetResult>) {
    forall i :: 0 <= i < |results| ==> Finished(results[i])
  }

  /** A result of target `i`, finished one way or the other. */
  predicate ResultFor(c: Component, i: nat, r: TargetResult)
    requires i < |c.targets|
  {
    r.ident == Ident(c, c.targets[i]) && Finished(r)
  }

  /** A slot holds its own target's result once it is written. */
  ghost predicate SlotOwn(c: Component, s: State, i: int) {
    && 0 <= i < |s.phases| == |s.slots| == |c.targets|
    && (s.phases[i] in {Written, Exited} ==> ResultFor(c, i, s.slots[i]))
  }

  ghost predicate SlotsOwn(c: Component, s: State) {
    |s.phases| == |s.slots| == |c.targets| && forall i :: 0 <= i < |c.targets| ==> SlotOwn(c, s, i)
  }

  ghost predicate Inv(groups: seq<Component>, s: State) {
    && s.comp <= |groups|
    && s.waiting == Active(s.phases)
    && (s.comp < |groups| ==> SlotsOwn(groups[s.comp], s))
    && Idents(s.done) == AllTargets(groups[..s.comp]) && AllFinished(s.done)
  }

  lemma EnterKeeps(groups: seq<Component>, comp: nat, done: seq<TargetResult>)
    requires comp <= |groups| && Idents(done) == AllTargets(groups[..comp]) && AllFinished(done)
    ensures Inv(groups, Enter(groups, comp, done))
  {
    var s := Enter(groups, comp, done);
    FreshInactive(|s.phases|);
    if comp < |groups| {
      forall i | 0 <= i < |groups[comp].targets|
        ensures SlotOwn(groups[comp], s, i)
      {
      }
    }
  }

  lemma MoveKeeps(groups: seq<Component>, s: State, i: nat, p: Phase, slots: seq<TargetResult>, waiting: int)
    requires Inv(groups, s) && s.comp < |groups| && i < |s.phases| && |slots| == |s.slots|
    requires i < |groups[s.comp].targets| && slots == s.slots[i := slots[i]]
    requires slots != s.slots || p in {Written, Exited} ==> ResultFor(groups[s.comp], i, slots[i])
    requires waiting == Active(s.phases[i := p])
    ensures Inv(groups, Move(s, i, p).(slots := slots, waiting := waiting))
  {
    var c, next := groups[s.comp], Move(s, i, p).(slots := slots, waiting := waiting);
    forall k | 0 <= k < |c.targets|
      ensures SlotOwn(c, next, k)
    {
      assert SlotOwn(c, s, k);
    }
  }

  lemma LeaveKeeps(groups: seq<Component>, s: State)
    requires Inv(groups, s) && Enabled(groups, s, Leave)
    ensures Inv(groups, Take(groups, s, Leave))
  {
    var c := groups[s.comp];
    NoneActive(s.phases);
    forall i | 0 <= i < |s.slots|
      ensures s.slots[i].ident == TargetsOf(c)[i] && Finished(s.slots[i])
    {
      assert SlotOwn(c, s, i);
    }
    assert Idents(s.done + s.slots) == Idents(s.done) + TargetsOf(c);
    assert groups[..s.comp + 1][..s.comp] == groups[..s.comp];
    EnterKeeps(groups, s.comp + 1, s.done + s.slots);
  }

  lemma StepKeeps(groups: seq<Component>, s: State, step: Step)
    requires Inv(groups, s) && Enabled(groups, s, step)
    ensures Inv(groups, Take(groups, s, step))
  {
    if step == Leave {
      LeaveKeeps(groups, s);
    } else {
      var next := Take(groups, s, step);
      assert SlotOwn(groups[s.comp], s, step.i);
      ActiveUpdate(s.phases, step.i, next.phases[step.i]);
      MoveKeeps(groups, s, step.i, next.phases[step.i], next.slots, next.waiting);
    }
  }

  /** The state after a list of steps, if every one of them was enabled in its turn. */
  function Run(groups: seq<Component>, steps: seq<Step>): Option<State> {
    if steps == [] then Some(Enter(groups, 0, []))
    else
      var before := Run(groups, steps[..|steps| - 1]);
      if before.Some? && Enabled(groups, before.value, steps[|steps| - 1])
      then Some(Take(groups, before.value, steps[|steps| - 1]))
      else None
  }

  lemma {:induction false} RunKeeps(groups: seq<Component>, steps: seq<Step>)
    requires Run(groups, steps).Some?
    ensures Inv(groups, Run(groups, steps).value)
  {
    if steps == [] {
      EnterKeeps(groups, 0, []);
    } else {
      RunKeeps(groups, steps[..|steps| - 1]);
      StepKeeps(groups, Run(groups, steps[..|steps| - 1]).value, steps[|steps| - 1]);
    }
  }

  /** However the goroutines interleave, the results end up in plan-group order, slot by slot
      the result of its own target. */
  lemma RunResults(groups: seq<Component>, steps: seq<Step>)
    requires Run(groups, steps).Some? && Run(groups, steps).value.comp == |groups|
    ensures Idents(Run(groups, steps).value.done) == AllTargets(groups) && AllFinished(Run(groups, steps).value.done)
  {
    RunKeeps(groups, steps);
    assert groups[..|groups|] == groups;
  }

  /** Goroutines wait for nothing but the semaphores: while some are not launched the next one
      can be, and each of the launched can make its next step whatever the others do. */
  lemma NobodyWaits(groups: seq<Component>, s: State, i: nat)
    requires Inv(groups, s) && s.comp < |groups| && i < |s.phases|
    ensures s.phases[i] == Idle ==> exists k: nat :: k <= i && Enabled(groups, s, Launch(k))
    ensures s.phases[i] == Waiting ==> Enabled(groups, s, Start(i)) && Enabled(groups, s, Refuse(i))
    ensures s.phases[i] == Working ==> forall targetId, ok :: Enabled(groups, s, Write(i, targetId, ok))
    ensures s.phases[i] == Written ==> Enabled(groups, s, Exit(i))
    ensures Enabled(groups, s, Leave) <==> forall k :: 0 <= k < |s.phases| ==> s.phases[k] == Exited
  {
    if s.phases[i] == Idle {
      var k := FirstIdle(s.phases);
      assert Enabled(groups, s, Launch(k));
    }
    if Enabled(groups, s, Leave) {
      NoneActive(s.phases);
    }
    if forall k :: 0 <= k < |s.phases| ==> s.phases[k] == Exited {
      NoLive(s.phases);
    }
  }

  lemma {:induction false} NoLive(phases: seq<Phase>)
    requires forall i :: 0 <= i < |phases| ==> !Live(phases[i])
    ensures Active(phases) == 0
  {
    if phases != [] {
      NoLive(phases[..|phases| - 1]);
    }
  }

  // ---------------------------------------------------------------- where results come from

  /** What a step writes: a refusal is a failure without an identifier, a finished worker's
      result is its own. */
  ghost predicate Writes(c: Component, step: Step, i: nat, r: TargetResult)
    requires i < |c.targets|
  {
    && r.ident == TargetIdent(c.name, c.targets[i].cloud, c.targets[i].region)
    && match step
       case Refuse(k) => k == i && r.status == Failed && r.targetId == ""
       case Write(k, targetId, ok) =>
         k == i && r.targetId == targetId && (r.status == Succeeded <==> ok) && (r.status == Failed <==> !ok)
       case _ => false
  }

  /** The slot's result, still in its place or already among the results. */
  ghost predicate Holds(t: State, comp: nat, base: nat, i: nat, r: TargetResult) {
    if t.comp == comp then
      |t.done| == base && i < |t.slots| == |t.phases| && t.phases[i] in {Written, Exited} && t.slots[i] == r
    else
      t.comp > comp && base + i < |t.done| && t.done[base + i] == r
  }

  lemma HoldsOn(groups: seq<Component>, t: State, step: Step, comp: nat, base: nat, i: nat, r: TargetResult)
    requires Enabled(groups, t, step) && Holds(t, comp, base, i, r)
    ensures Holds(Take(groups, t, step), comp, base, i, r)
  {
  }

  /** What a step of a run writes is never overwritten: it stays in its slot until the component
      is left, and then at its place among the results for good. */
  lemma {:induction false} WrittenOnce(groups: seq<Component>, steps: seq<Step>, p: nat) returns (r: TargetResult)
    requires Run(groups, steps).Some? && p < |steps| && (steps[p].Refuse? || steps[p].Write?)
    ensures Run(groups, steps[..p]).Some?
    ensures var s := Run(groups, steps[..p]).value;
            && s.comp < |groups| && steps[p].i < |groups[s.comp].targets|
            && Writes(groups[s.comp], steps[p], steps[p].i, r)
            && Holds(Run(groups, steps).value, s.comp, |s.done|, steps[p].i, r)
  {
    var init := steps[..|steps| - 1];
    if p == |steps| - 1 {
      r := Run(groups, steps).value.slots[steps[p].i];
    } else {
      assert init[..p] == steps[..p];
      r := WrittenOnce(groups, init, p);
      var s := Run(groups, steps[..p]).value;
      HoldsOn(groups, Run(groups, init).value, steps[|steps| - 1], s.comp, |s.done|, steps[p].i, r);
    }
  }

  /** Step `p` of the run writes the result at place `q`. */
  ghost predicate WritesPlace(groups: seq<Component>, steps: seq<Step>, p: int, q: int) {
    && 0 <= p < |steps| && (steps[p].Refuse? || steps[p].Write?)
    && Run(groups, steps[..p]).Some? && |Run(groups, steps[..p]).value.done| + steps[p].i == q
  }

  ghost predicate WasWritten(groups: seq<Component>, steps: seq<Step>, q: int) {
    exists p :: WritesPlace(groups, steps, p, q)
  }

  lemma WrittenStill(groups: seq<Component>, steps: seq<Step>, q: int)
    requires steps != [] && WasWritten(groups, steps[..|steps| - 1], q)
    ensures WasWritten(groups, steps, q)
  {
    var init := steps[..|steps| - 1];
    var p :| WritesPlace(groups, init, p, q);
    assert init[..p] == steps[..p];
    assert WritesPlace(groups, steps, p, q);
  }

  /** Every result and every written slot was written by some step. */
  ghost predicate AllWritten(groups: seq<Component>, steps: seq<Step>, t: State) {
    && (forall q :: 0 <= q < |t.done| ==> WasWritten(groups, steps, q))
    && (forall i :: 0 <= i < |t.phases| && t.phases[i] in {Written, Exited} ==>
          WasWritten(groups, steps, |t.done| + i))
  }

  lemma {:induction false} EveryResultWasWritten(groups: seq<Component>, steps: seq<Step>)
    requires Run(groups, steps).Some?
    ensures AllWritten(groups, steps, Run(groups, steps).value)
  {
    if steps != [] {
      var init, step := steps[..|steps| - 1], steps[|steps| - 1];
      var s, t := Run(groups, init).value, Run(groups, steps).value;
      EveryResultWasWritten(groups, init);
      RunKeeps(groups, init);
      if step == Leave {
        LeftWritten(groups, steps, s);
      } else {
        SlotsWritten(groups, steps, s, t);
      }
    }
  }

  lemma DoneWritten(groups: seq<Component>, steps: seq<Step>, s: State)
    requires steps != [] && AllWritten(groups, steps[..|steps| - 1], s)
    ensures forall q :: 0 <= q < |s.done| ==> WasWritten(groups, steps, q)
  {
    forall q | 0 <= q < |s.done|
      ensures WasWritten(groups, steps, q)
    {
      WrittenStill(groups, steps, q);
    }
  }

  lemma LeftWritten(groups: seq<Component>, steps: seq<Step>, s: State)
    requires steps != [] && Inv(groups, s) && Enabled(groups, s, Leave)
    requires AllWritten(groups, steps[..|steps| - 1], s)
    ensures AllWritten(groups, steps, Take(groups, s, Leave))
  {
    DoneWritten(groups, steps, s);
    NoneActive(s.phases);
    forall q | |s.done| <= q < |s.done| + |s.slots|
      ensures WasWritten(groups, steps, q)
    {
      var i := q - |s.done|;
      assert !Live(s.phases[i]) && s.phases[i] != Idle;
      assert WasWritten(groups, steps[..|steps| - 1], |s.done| + i);
      WrittenStill(groups, steps, q);
    }
  }

  lemma SlotsWritten(groups: seq<Component>, steps: seq<Step>, s: State, t: State)
    requires steps != [] && Run(groups, steps[..|steps| - 1]) == Some(s) && steps[|steps| - 1] != Leave
    requires Enabled(groups, s, steps[|steps| - 1]) && t == Take(groups, s, steps[|steps| - 1])
    requires AllWritten(groups, steps[..|steps| - 1], s)
    ensures AllWritten(groups, steps, t)
  {
    DoneWritten(groups, steps, s);
    forall i | 0 <= i < |t.phases| && t.phases[i] in {Written, Exited}
      ensures WasWritten(groups, steps, |t.done| + i)
    {
      NewlyWritten(groups, s, steps[|steps| - 1], i);
      SlotWritten(groups, steps, s, i);
    }
  }

  lemma NewlyWritten(groups: seq<Component>, s: State, step: Step, i: nat)
    requires Enabled(groups, s, step) && step != Leave
    ensures var t := Take(groups, s, step);
            && t.done == s.done && |t.phases| == |s.phases|
            && (i < |t.phases| && t.phases[i] in {Written, Exited} && s.phases[i] !in {Written, Exited} ==>
                  (step.Refuse? || step.Write?) && step.i == i)
  {
  }

  lemma SlotWritten(groups: seq<Component>, steps: seq<Step>, s: State, i: nat)
    requires steps != [] && Run(groups, steps[..|steps| - 1]) == Some(s)
    requires AllWritten(groups, steps[..|steps| - 1], s)
    requires || (i < |s.phases| && s.phases[i] in {Written, Exited})
             || ((steps[|steps| - 1].Refuse? || steps[|steps| - 1].Write?) && steps[|steps| - 1].i == i)
    ensures WasWritten(groups, steps, |s.done| + i)
  {
    if i < |s.phases| && s.phases[i] in {Written, Exited} {
      WrittenStill(groups, steps, |s.done| + i);
    } else {
      LastWrites(groups, steps, s);
    }
  }

  lemma LastWrites(groups: seq<Component>, steps: seq<Step>, s: State)
    requires steps != [] && Run(groups, steps[..|steps| - 1]) == Some(s)
    requires steps[|steps| - 1].Refuse? || steps[|steps| - 1].Write?
    ensures WasWritten(groups, steps, |s.done| + steps[|steps| - 1].i)
  {
    assert WritesPlace(groups, steps, |steps| - 1, |s.done| + steps[|steps| - 1].i);
  }

  /** Until the last component is left some step is enabled: the wait group cannot hang. */
  lemma NeverStuck(groups: seq<Component>, s: State)
    requires Inv(groups, s) && s.comp < |groups|
    ensures exists step :: Enabled(groups, s, step)
  {
    if AllLaunched(s) {
      if s.waiting == 0 {
        assert Enabled(groups, s, Leave);
      } else {
        var i := SomeActive(s.phases);
        var step := match s.phases[i] case Waiting => Start(i) case Working => Write(i, "", true) case _ => Exit(i);
        assert Enabled(groups, s, step);
      }
    } else {
      var i := FirstIdle(s.phases);
      assert Enabled(groups, s, Launch(i));
    }
  }

  lemma {:induction false} SomeActive(phases: seq<Phase>) returns (i: nat)
    requires Active(phases) > 0
    ensures i < |phases| && Live(phases[i])
  {
    if Live(phases[|phases| - 1]) {
      i := |phases| - 1;
    } else {
      i := SomeActive(phases[..|phases| - 1]);
    }
  }

  lemma FirstIdle(phases: seq<Phase>) returns (i: nat)
    requires exists k :: 0 <= k < |phases| && phases[k] == Idle
    ensures i < |phases| && phases[i] == Idle && forall k :: 0 <= k < i ==> phases[k] != Idle
  {
    i := 0;
    while phases[i] != Idle
      invariant i < |phases| && forall k :: 0 <= k < i ==> phases[k] != Idle
      decreases |phases| - i
    {
      i := i + 1;
    }
  }

  // ---------------------------------------------------------------- ordering

  ghost predicate AllDone(ts: seq<TargetIdent>, s: State, t: TargetIdent) {
    Copies(Idents(s.done), t) == Copies(ts, t)
  }

  lemma EarlierGroupsDone(ts: seq<TargetIdent>, groups: seq<Component>, names: seq<string>, s: State, h: nat,
                          t: TargetIdent)
    requires Grouping(ts, groups, names) && Inv(groups, s) && h < s.comp && names[h] == t.component
    ensures AllDone(ts, s, t)
  {
    PrefixCopies(ts, groups[..s.comp], names[..s.comp], t);
    assert names[..s.comp][h] == t.component;
  }

  /** For a plan in dependency order, whenever a worker starts, under any interleaving, every
      plan target of each component its own component refers to has finished. */
  lemma WorkerStartsAfterUpstream(g: Graph<string>, ts: seq<TargetIdent>, steps: seq<Step>, i: nat, up: TargetIdent)
    requires DependencyFirst(g, ts)
    requires Run(Groups(ts), steps).Some? && Enabled(Groups(ts), Run(Groups(ts), steps).value, Start(i))
    requires up in ts && Edge(g, Groups(ts)[Run(Groups(ts), steps).value.comp].name, up.component)
    ensures AllDone(ts, Run(Groups(ts), steps).value, up)
  {
    var groups, names := Groups(ts), FirstNames(ts);
    var s := Run(groups, steps).value;
    RunKeeps(groups, steps);
    FirstNamesOrder(g, ts);
    var h := NamedBy(ts, up);
    assert Edge(g, names[s.comp], names[h]);
    EarlierGroupsDone(ts, groups, names, s, h, up);
  }

  lemma NamedBy(ts: seq<TargetIdent>, t: TargetIdent) returns (h: nat)
    requires t in ts
    ensures h < |FirstNames(ts)| && FirstNames(ts)[h] == t.component
  {
    var k :| 0 <= k < |ts| && ts[k] == t;
    assert t.component in FirstNames(ts);
    h :| 0 <= h < |FirstNames(ts)| && FirstNames(ts)[h] == t.component;
  }

  /** `destroyExisting` runs the same machine on the reversed groups: whenever a worker starts,
      every plan target of each component that refers to its own has finished. */
  lemma DestroyStartsAfterDependents(g: Graph<string>, ts: seq<TargetIdent>, groups: seq<Component>, steps: seq<Step>,
                                     i: nat, down: TargetIdent)
    requires DependencyFirst(g, ts) && groups == Reversed(Groups(ts))
    requires Run(groups, steps).Some? && Enabled(groups, Run(groups, steps).value, Start(i))
    requires down in ts && Edge(g, down.component, groups[Run(groups, steps).value.comp].name)
    ensures AllDone(ts, Run(groups, steps).value, down)
  {
    var s := Run(groups, steps).value;
    RunKeeps(groups, steps);
    var h := NamedBy(ts, down);
    ReversedRank(g, ts, h, s.comp);
    EarlierReversedDone(ts, groups, s, h, down);
  }

  lemma EarlierReversedDone(ts: seq<TargetIdent>, groups: seq<Component>, s: State, h: nat, t: TargetIdent)
    requires groups == Reversed(Groups(ts)) && Inv(groups, s)
    requires h < |FirstNames(ts)| && FirstNames(ts)[h] == t.component && |FirstNames(ts)| - 1 - h < s.comp
    ensures AllDone(ts, s, t)
  {
    var names, k := Reversed(FirstNames(ts)), |FirstNames(ts)| - 1 - h;
    ReversedNames(ts, groups, names);
    assert names[k] == FirstNames(ts)[h];
    EarlierGroupsDone(ts, groups, names, s, k, t);
  }

  lemma ReversedNames(ts: seq<TargetIdent>, groups: seq<Component>, names: seq<string>)
    requires groups == Reversed(Groups(ts)) && names == Reversed(FirstNames(ts))
    ensures Grouping(ts, groups, names)
  {
  }

  lemma ReversedRank(g: Graph<string>, ts: seq<TargetIdent>, h: nat, k: nat)
    requires DependencyFirst(g, ts) && h < |FirstNames(ts)| && k < |Groups(ts)|
    requires Edge(g, FirstNames(ts)[h], Reversed(Groups(ts))[k].name)
    ensures |FirstNames(ts)| - 1 - h < k
  {
    FirstNamesOrder(g, ts);
    assert Reversed(Groups(ts))[k].name == FirstNames(ts)[|FirstNames(ts)| - 1 - k];
  }

  /** A plan returned by `Plan` and applied without a project: its workers start in dependency
      order and every planned target gets exactly one result. */
  lemma PlanThenApply(project: seq<Component>, filters: seq<TargetFilter>, steps: seq<Step>)
    requires TopoSpec(project).Ok?
    requires Run(Groups(Planned(TopoSpec(project).value, filters)), steps).Some?
    ensures var ts := Planned(TopoSpec(project).value, filters);
            var s := Run(Groups(ts), steps).value;
            && (forall i, up | Enabled(Groups(ts), s, Start(i)) && up in ts &&
                               Edge(GraphOf(project), Groups(ts)[s.comp].name, up.component) :: AllDone(ts, s, up))
            && (s.comp == |Groups(ts)| ==> multiset(Idents(s.done)) == multiset(ts))
  {
    var ts := Planned(TopoSpec(project).value, filters);
    var s := Run(Groups(ts), steps).value;
    PlanIsDependencyFirst(project, filters);
    forall i, up | Enabled(Groups(ts), s, Start(i)) && up in ts
        && Edge(GraphOf(project), Groups(ts)[s.comp].name, up.component)
      ensures AllDone(ts, s, up)
    {
      WorkerStartsAfterUpstream(GraphOf(project), ts, steps, i, up);
    }
    if s.comp == |Groups(ts)| {
      RunResults(Groups(ts), steps);
      GroupsKeepTargets(ts);
    }
  }
}

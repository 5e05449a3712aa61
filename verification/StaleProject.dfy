/** Applying or destroying a plan against a project that no longer declares all of its
    components: exactly when the order still protects a dependent. */
module StaleProject {
  import opened Order
  import opened RefGraph
  import opened Components
  import opened Results
  import opened Toposort
  import opened ToposortLaws
  import opened Targets
  import opened ApplyOrdered
  import opened ApplyLaws
  import opened Destroy

  /** The order a plan of distinct targets is walked in; the plan may name components the
      project lacks. */
  ghost predicate WalkedIn(run: Run, ordered: seq<TargetIdent>) {
    TargetSpec(PlanIdents(run.plan), run.project) == Ok(ordered) && Distinct(PlanIdents(run.plan))
  }

  ghost predicate Completed(run: Run, ordered: seq<TargetIdent>, results: seq<TargetResult>, calls: seq<seq<Call>>) {
    WalkedIn(run, ordered) && ValidRun(run, ordered, results, calls) && |results| == |ordered|
  }

  /** The rank `ToposortTargets` sorts a component's targets by, 0 when it is missing. */
  ghost function SortRank(project: seq<Component>, name: string): nat
    requires TopoSpec(project).Ok?
  {
    RankAt(RankMap(TopoSpec(project).value), name)
  }

  predicate SamePlace(a: TargetIdent, b: TargetIdent) {
    a.cloud == b.cloud && a.region == b.region
  }

  /** By cloud, then by region. */
  ghost predicate PlaceLess(a: TargetIdent, b: TargetIdent) {
    if a.cloud != b.cloud then ComesFirst(a.cloud, b.cloud) else ComesFirst(a.region, b.region)
  }

  /** The component is declared, and not the first in order. */
  ghost predicate NotFirst(ordered: seq<Component>, name: string) {
    name in Names(ordered) && ordered[0].name != name
  }

  lemma NotFirstRanks(project: seq<Component>, name: string)
    requires TopoSpec(project).Ok?
    ensures NotFirst(TopoSpec(project).value, name) <==> SortRank(project, name) > 0
  {
    var ordered := TopoSpec(project).value;
    ToposortResult(project);
    RankIsPlace(ordered, name);
    if name in Names(ordered) {
      assert Names(ordered)[0] == ordered[0].name;
    }
  }

  /** What a caller can check before the walk: the upstream component is declared, or the
      dependent is not of the first component in order, or the upstream target comes first by
      cloud and region, or, in the same place, in the plan. */
  ghost predicate Protected(run: Run, t: TargetIdent, up: TargetIdent)
    requires TopoSpec(run.project).Ok?
  {
    || up.component in Names(run.project)
    || NotFirst(TopoSpec(run.project).value, t.component)
    || if SamePlace(up, t) then Before(PlanIdents(run.plan), up, t) else PlaceLess(up, t)
  }

  lemma {:induction false} DistinctBefore(s: seq<TargetIdent>, a: TargetIdent, b: TargetIdent)
    requires a in s && b in s && a != b
    ensures Before(s, a, b) || Before(s, b, a)
  {
    var i :| 0 <= i < |s| && s[i] == a;
    var j :| 0 <= j < |s| && s[j] == b;
    if i < j {
      assert s[i] == a && s[j] == b;
    } else {
      assert s[j] == b && s[i] == a;
    }
  }

  lemma MissingRank(project: seq<Component>, name: string)
    requires TopoSpec(project).Ok? && name !in Names(project)
    ensures SortRank(project, name) == 0
  {
    ToposortResult(project);
    var ordered := TopoSpec(project).value;
    assert name !in Names(ordered) by {
      assert forall n :: n in Names(ordered) ==> n in GraphOf(project);
    }
  }

  lemma LowerRankFirst(run: Run, ordered: seq<TargetIdent>, i: nat, k: nat)
    requires TargetSpec(PlanIdents(run.plan), run.project) == Ok(ordered) && i < |ordered| && k < |ordered|
    requires SortRank(run.project, ordered[i].component) < SortRank(run.project, ordered[k].component)
    ensures i < k
  {
    var rank := RankMap(TopoSpec(run.project).value);
    ByRankIsStrictWeakOrder(rank);
    StableSortSorted(ByRank(rank), PlanIdents(run.plan));
    LaterIsNotLess(rank, ordered, k, i);
  }

  /** Targets of one rank, cloud and region keep the order the plan lists them in. */
  lemma TiesKeepPlanOrder(run: Run, ordered: seq<TargetIdent>, a: TargetIdent, b: TargetIdent)
    requires TargetSpec(PlanIdents(run.plan), run.project) == Ok(ordered)
    requires SortRank(run.project, a.component) == SortRank(run.project, b.component) && SamePlace(a, b)
    requires Before(PlanIdents(run.plan), a, b)
    ensures Before(ordered, a, b)
  {
    var rank := RankMap(TopoSpec(run.project).value);
    LessIrreflexive(a.cloud);
    LessIrreflexive(a.region);
    assert !TargetLess(rank, b, a);
    StableSortStable(ByRank(rank), PlanIdents(run.plan), a, b);
  }

  /** Whether a target of a component that `ordered[k]` refers to, in whatever cloud and region,
      has its turn before `ordered[k]`. */
  lemma TurnsIff(run: Run, ordered: seq<TargetIdent>, k: nat, j: nat, i: nat, t: TargetIdent, up: TargetIdent)
    requires WalkedIn(run, ordered) && i < |ordered| && k < |ordered| && ordered[k] == t && ordered[i] == up
    requires j < |RefsOf(run, t)| && up.component == RefsOf(run, t)[j].component
    ensures i < k <==> Protected(run, t, up)
  {
    if up.component in Names(run.project) {
      RefIsEdge(run, t, j);
      TargetsDependencyFirst(PlanIdents(run.plan), run.project);
    } else {
      MissingRank(run.project, up.component);
      NotItself(run, t, j);
      NotFirstRanks(run.project, t.component);
      if SortRank(run.project, t.component) > 0 {
        LowerRankFirst(run, ordered, i, k);
      } else if SamePlace(up, t) {
        TieTurns(run, ordered, i, k);
      } else {
        PlaceTurns(run, ordered, i, k);
      }
    }
  }

  /** Targets of one rank in different places are sorted by place. */
  lemma PlaceTurns(run: Run, ordered: seq<TargetIdent>, i: nat, k: nat)
    requires WalkedIn(run, ordered) && i < |ordered| && k < |ordered| && !SamePlace(ordered[i], ordered[k])
    requires SortRank(run.project, ordered[i].component) == SortRank(run.project, ordered[k].component)
    ensures i < k <==> PlaceLess(ordered[i], ordered[k])
  {
    var rank := RankMap(TopoSpec(run.project).value);
    ByRankIsStrictWeakOrder(rank);
    StableSortSorted(ByRank(rank), PlanIdents(run.plan));
    LessTotal(ordered[i].cloud, ordered[k].cloud);
    LessTotal(ordered[i].region, ordered[k].region);
    LessIsComesFirst(ordered[i].cloud, ordered[k].cloud);
    LessIsComesFirst(ordered[i].region, ordered[k].region);
    if PlaceLess(ordered[i], ordered[k]) {
      LaterIsNotLess(rank, ordered, k, i);
    } else {
      LaterIsNotLess(rank, ordered, i, k);
    }
  }

  lemma OrderedDistinct(run: Run, ordered: seq<TargetIdent>)
    requires WalkedIn(run, ordered)
    ensures Distinct(ordered) && forall t :: t in ordered <==> t in PlanIdents(run.plan)
  {
    TargetsDependencyFirst(PlanIdents(run.plan), run.project);
    PermutationDistinct(PlanIdents(run.plan), ordered);
    SameElements(PlanIdents(run.plan), ordered);
  }

  /** Only a declared component has references. */
  lemma NotItself(run: Run, t: TargetIdent, j: nat)
    requires j < |RefsOf(run, t)| && RefsOf(run, t)[j].component !in Names(run.project)
    ensures RefsOf(run, t)[j].component != t.component
  {
    FindComponentIsIndexed(run.project, t.component);
  }

  lemma TieTurns(run: Run, ordered: seq<TargetIdent>, i: nat, k: nat)
    requires WalkedIn(run, ordered) && i < |ordered| && k < |ordered| && ordered[i] != ordered[k]
    requires SamePlace(ordered[i], ordered[k])
    requires SortRank(run.project, ordered[i].component) == SortRank(run.project, ordered[k].component)
    ensures i < k <==> Before(PlanIdents(run.plan), ordered[i], ordered[k])
  {
    OrderedDistinct(run, ordered);
    assert ordered[i] in ordered && ordered[k] in ordered;
    BeforeInDistinct(ordered, i, k);
    BeforeInDistinct(ordered, k, i);
    DistinctBefore(PlanIdents(run.plan), ordered[i], ordered[k]);
    if Before(PlanIdents(run.plan), ordered[i], ordered[k]) {
      TiesKeepPlanOrder(run, ordered, ordered[i], ordered[k]);
    } else {
      TiesKeepPlanOrder(run, ordered, ordered[k], ordered[i]);
    }
  }

  /** When the runner's Apply is called on a target, an upstream target it refers to is planned,
      and it is recorded as succeeded by then exactly when the reference is protected. */
  lemma AppliesAfterUpstreamIff(run: Run, ordered: seq<TargetIdent>, results: seq<TargetResult>,
                                calls: seq<seq<Call>>, k: nat, j: nat)
    requires Completed(run, ordered, results, calls) && k < |ordered| && j < |RefsOf(run, ordered[k])|
    requires exists call :: call in calls[k] && call.ApplyCall?
    ensures var up := Upstream(ordered[k], RefsOf(run, ordered[k])[j]);
            InPlan(run.plan, up) && (Recorded(results, k, up, Succeeded) <==> Protected(run, ordered[k], up))
  {
    assert ResultAt(run, ordered, results, calls, k);
    var up := Upstream(ordered[k], RefsOf(run, ordered[k])[j]);
    assert ReadRef(run, ordered[k], RefsOf(run, ordered[k])[j], k, j).Ok?;
    assert InPlan(run.plan, up);
    PlannedIsOrdered(run, ordered, up);
    var i :| 0 <= i < |ordered| && ordered[i] == up;
    TurnsIff(run, ordered, k, j, i, ordered[k], up);
    OrderedDistinct(run, ordered);
    if i < k {
      assert !Down(StatusMap(results[..k]), up);
      EarlierSucceeded(run, ordered, results, calls, k, up);
    } else {
      NotRecordedBefore(run, ordered, results, calls, k, i);
    }
  }

  /** In the order `destroyToposorted` attempts the targets in, a target comes before a target
      of a component it refers to, in whatever cloud and region, exactly when the reference is
      protected. */
  lemma DestroysBeforeUpstreamIff(run: Run, ordered: seq<TargetIdent>, a: nat, j: nat, b: nat, t: TargetIdent,
                                  up: TargetIdent)
    requires WalkedIn(run, ordered) && a < |ordered| && b < |ordered|
    requires t == Reversed(ordered)[a] && up == Reversed(ordered)[b]
    requires j < |RefsOf(run, t)| && up.component == RefsOf(run, t)[j].component
    ensures a < b <==> Protected(run, t, up)
  {
    var k: nat, i: nat := Mirror(ordered, a), Mirror(ordered, b);
    TurnsIff(run, ordered, k, j, i, t, up);
  }

  /** Where the element at `a` of the reversed sequence stands in the sequence itself. */
  function Mirror(s: seq<TargetIdent>, a: nat): (k: nat)
    requires a < |s|
    ensures k < |s| && s[k] == Reversed(s)[a] && k == |s| - 1 - a
  {
    |s| - 1 - a
  }

  lemma NotRecordedBefore(run: Run, ordered: seq<TargetIdent>, results: seq<TargetResult>, calls: seq<seq<Call>>,
                          k: nat, i: nat)
    requires ValidRun(run, ordered, results, calls) && Distinct(ordered) && k <= i < |ordered| && k <= |results|
    ensures !Recorded(results, k, ordered[i], Succeeded)
  {
    forall m | 0 <= m < k
      ensures results[m].ident != ordered[i]
    {
      StatusIsOutcome(run, ordered, results, calls, m);
    }
  }

  /** A project of one component that refers to a component it lacks. */
  function LonelyProject(): seq<Component> {
    [Component("app", "", [], [Ref("db", "url")])]
  }

  function App(): TargetIdent {
    TargetIdent("app", "aws", "eu")
  }

  function Db(): TargetIdent {
    TargetIdent("db", "aws", "eu")
  }

  /** A plan that still has both, and a world in which nothing fails: the upstream's state file
      is one of an earlier deployment. */
  function LonelyRun(): Run {
    Run([TargetPlan("1", App(), "app"), TargetPlan("2", Db(), "db")], LonelyProject(),
        World((k, j, dir) => Parsed(map["url" := Some("old")]), k => true, k => true))
  }

  lemma LonelyIsAcyclic()
    ensures TopoSpec(LonelyProject()).Ok?
  {
    var g := GraphOf(LonelyProject());
    assert Names(LonelyProject()) == ["app"];
    IndexAt(LonelyProject(), 0);
    assert g["app"] == ["db"];
    forall a, b
      ensures !Edge(g, a, b)
    {
    }
    DecreasingIsAcyclic(g, map[]);
    ToposortSucceedsIffAcyclic(LonelyProject());
  }

  lemma LonelyOrder()
    ensures TargetSpec(PlanIdents(LonelyRun().plan), LonelyProject()) == Ok([App(), Db()])
  {
    LonelyIsAcyclic();
    var rank := RankMap(TopoSpec(LonelyProject()).value);
    LessIrreflexive("aws");
    LessIrreflexive("eu");
    assert !TargetLess(rank, Db(), App());
    assert PlanIdents(LonelyRun().plan) == [App(), Db()];
    SortPair(ByRank(rank), App(), Db());
  }

  lemma SortPair(less: (TargetIdent, TargetIdent) -> bool, a: TargetIdent, b: TargetIdent)
    requires !less(b, a)
    ensures StableSort(less, [a, b]) == [a, b]
  {
    assert [a, b][1..] == [b] && [b][1..] == [];
    assert StableSort(less, [b]) == [b];
  }

  /** On it `applyToposorted` applies the dependent first, and then its upstream. */
  method StaleProjectAppliesTooEarly() returns (calls: seq<seq<Call>>)
    ensures |calls| == 2 && |calls[0]| == 2 && |calls[1]| == 2
    ensures calls[0][1] == ApplyCall(App()) && calls[1][1] == ApplyCall(Db())
  {
    var run := LonelyRun();
    LonelyOrder();
    var r;
    r, calls := ApplyToposorted(run);
    ghost var results := r.value.1;
    assert ResultAt(run, [App(), Db()], results, calls, 0) && ResultAt(run, [App(), Db()], results, calls, 1);
    LonelyTurn(results[..0], App(), 0);
    LonelyTurn(results[..1], Db(), 1);
  }

  /** And `destroyToposorted` destroys the upstream first, while its dependent is still there. */
  method StaleProjectDestroysTooEarly() returns (calls: seq<seq<TargetIdent>>)
    ensures calls == [[Db()], [App()]]
  {
    var world := DestroyWorld(k => true, k => true);
    LonelyOrder();
    var r;
    r, calls := DestroyToposorted(LonelyRun().plan, LonelyProject(), world);
    assert Reversed([App(), Db()]) == [Db(), App()];
    LonelyDestroys(world, r.value.1, calls);
  }

  lemma LonelyDestroys(world: DestroyWorld, results: seq<TargetResult>, calls: seq<seq<TargetIdent>>)
    requires DestroyRun(LonelyRun().plan, [Db(), App()], world, results, calls) && |results| == 2
    requires world.envOk(0) && world.envOk(1)
    ensures calls == [[Db()], [App()]]
  {
    assert DestroyedAt(LonelyRun().plan, [Db(), App()], world, results, calls, 0);
    assert DestroyedAt(LonelyRun().plan, [Db(), App()], world, results, calls, 1);
  }

  lemma LonelyTurn(before: seq<TargetResult>, t: TargetIdent, k: nat)
    requires (t == App() && before == []) || t == Db()
    ensures ReachesApply(LonelyRun(), StatusMap(before), t, k)
  {
    var run := LonelyRun();
    var refs := RefsOf(run, t);
    assert run.project[0].name == "app" && run.project[1..] == [];
    if t == App() {
      assert refs == [Ref("db", "url")];
      assert run.plan[1].ident == Upstream(t, refs[0]);
      assert InPlan(run.plan, Upstream(t, refs[0]));
      assert ReadRef(run, t, refs[0], k, 0).Ok?;
    } else {
      assert FindComponent(run.project[1..], "db").refs == [];
      assert refs == [];
    }
  }
}

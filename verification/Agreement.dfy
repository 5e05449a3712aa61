/** The four ordering engines answer the same question: on unique names, each of them fails
    exactly when some component reaches itself over known references. */
module Agreement {
  import opened RefGraph
  import opened Components
  import opened Toposort
  import opened ToposortLaws
  import opened FifoSort
  import opened Ranks
  import opened Phase5
  import opened RefValidation

  ghost predicate HasRef(refs: seq<Ref>, name: string) {
    exists j :: 0 <= j < |refs| && refs[j].component == name
  }

  ghost predicate RefsItself(cs: seq<Component>) {
    exists i :: 0 <= i < |cs| && HasRef(cs[i].refs, cs[i].name)
  }

  lemma NameIndexAt(cs: seq<Component>, i: nat)
    requires UniqueNames(cs) && i < |cs|
    ensures cs[i].name in NameIndex(cs) && NameIndex(cs)[cs[i].name] == i
  {
    assert Names(cs)[i] == cs[i].name;
    var k := NameIndex(cs)[cs[i].name];
    assert Names(cs)[k] == Names(cs)[i];
  }

  lemma NameEdge(cs: seq<Component>, u: nat, name: string)
    requires UniqueNames(cs) && u < |cs|
    ensures Edge(GraphOf(cs), cs[u].name, name) <==> name in Index(cs) && HasRef(cs[u].refs, name)
  {
    IndexAt(cs, u);
    var names := RefNames(cs[u].refs);
    assert name in names <==> HasRef(cs[u].refs, name) by {
      if name in names {
        var j :| 0 <= j < |names| && names[j] == name;
        assert cs[u].refs[j].component == name;
      }
      if HasRef(cs[u].refs, name) {
        var j :| 0 <= j < |cs[u].refs| && cs[u].refs[j].component == name;
        assert names[j] == name;
      }
    }
  }

  lemma PositionEdge(cs: seq<Component>, u: nat, v: nat)
    requires UniqueNames(cs) && u < |cs| && v < |cs|
    ensures Edge(PositionGraph(cs), u, v) <==> u != v && HasRef(cs[u].refs, cs[v].name)
  {
    SuccessorsContain(NameIndex(cs), cs[u].refs, u, v);
    RefersAt(cs, cs[u].refs, v);
  }

  lemma RefersAt(cs: seq<Component>, refs: seq<Ref>, v: nat)
    requires UniqueNames(cs) && v < |cs|
    ensures HasRef(refs, cs[v].name) <==>
            exists j :: 0 <= j < |refs| && refs[j].component in NameIndex(cs) && NameIndex(cs)[refs[j].component] == v
  {
    NameIndexAt(cs, v);
    forall j | 0 <= j < |refs|
      ensures refs[j].component == cs[v].name <==>
              refs[j].component in NameIndex(cs) && NameIndex(cs)[refs[j].component] == v
    {
    }
  }

  /** The two graphs have the same edges between different components. */
  lemma EdgesAgree(cs: seq<Component>, u: nat, v: nat)
    requires UniqueNames(cs) && u < |cs| && v < |cs|
    ensures Edge(PositionGraph(cs), u, v) <==> u != v && Edge(GraphOf(cs), cs[u].name, cs[v].name)
  {
    IndexAt(cs, v);
    NameEdge(cs, u, cs[v].name);
    PositionEdge(cs, u, v);
  }

  ghost predicate NamesOfPositions(cs: seq<Component>, p: seq<int>, q: seq<string>) {
    |p| == |q| && forall i :: 0 <= i < |p| ==> 0 <= p[i] < |cs| && q[i] == cs[p[i]].name
  }

  lemma PositionWalkIsNameWalk(cs: seq<Component>, p: seq<int>, q: seq<string>)
    requires UniqueNames(cs) && Walk(PositionGraph(cs), p) && NamesOfPositions(cs, p, q)
    ensures Walk(GraphOf(cs), q)
  {
    forall i | 0 <= i < |q|
      ensures q[i] in GraphOf(cs)
    {
      IndexAt(cs, p[i]);
    }
    forall i | 0 <= i < |q| - 1
      ensures Edge(GraphOf(cs), q[i], q[i + 1])
    {
      assert Edge(PositionGraph(cs), p[i], p[i + 1]);
      EdgesAgree(cs, p[i], p[i + 1]);
    }
  }

  lemma PositionCycleIsNameCycle(cs: seq<Component>, p: seq<int>)
    requires UniqueNames(cs) && Cycle(PositionGraph(cs), p)
    ensures Cyclic(GraphOf(cs))
  {
    var g := PositionGraph(cs);
    assert forall u :: u in g ==> 0 <= u < |cs|;
    var q := seq(|p|, i requires 0 <= i < |p| => if 0 <= p[i] < |cs| then cs[p[i]].name else "");
    forall i | 0 <= i < |p|
      ensures 0 <= p[i] < |cs| && q[i] == cs[p[i]].name
    {
      assert p[i] in g;
    }
    PositionWalkIsNameWalk(cs, p, q);
    assert Cycle(GraphOf(cs), q);
  }

  lemma NameWalkIsPositionWalk(cs: seq<Component>, q: seq<string>, p: seq<int>)
    requires UniqueNames(cs) && Walk(GraphOf(cs), q) && NamesOfPositions(cs, p, q) && !RefsItself(cs)
    ensures Walk(PositionGraph(cs), p)
  {
    forall i | 0 <= i < |p| - 1
      ensures Edge(PositionGraph(cs), p[i], p[i + 1])
    {
      assert Edge(GraphOf(cs), q[i], q[i + 1]);
      NameEdge(cs, p[i], q[i + 1]);
      EdgesAgree(cs, p[i], p[i + 1]);
    }
  }

  function Positions(cs: seq<Component>, q: seq<string>): (p: seq<int>)
    requires forall n :: n in q ==> n in Names(cs)
    ensures NamesOfPositions(cs, p, q)
    ensures forall i, j :: 0 <= i < |q| && 0 <= j < |q| && q[i] == q[j] ==> p[i] == p[j]
  {
    var idx := NameIndex(cs);
    var p := seq(|q|, i requires 0 <= i < |q| => assert q[i] in q; idx[q[i]]);
    assert forall i :: 0 <= i < |q| ==> q[i] in q && q[i] in idx && p[i] == idx[q[i]];
    p
  }

  lemma NameCycleIsPositionCycle(cs: seq<Component>, q: seq<string>)
    requires UniqueNames(cs) && Cycle(GraphOf(cs), q) && !RefsItself(cs)
    ensures Cyclic(PositionGraph(cs))
  {
    forall n | n in q
      ensures n in Names(cs)
    {
      assert n in GraphOf(cs);
    }
    var p := Positions(cs, q);
    NameWalkIsPositionWalk(cs, q, p);
    assert Cycle(PositionGraph(cs), p);
  }

  lemma SelfRefIsCycle(cs: seq<Component>)
    requires UniqueNames(cs) && RefsItself(cs)
    ensures Cyclic(GraphOf(cs))
  {
    var i :| 0 <= i < |cs| && HasRef(cs[i].refs, cs[i].name);
    IndexAt(cs, i);
    NameEdge(cs, i, cs[i].name);
    WalkBackIsCyclic(GraphOf(cs), [cs[i].name], cs[i].name);
  }

  /** A self reference is a cycle of names; phase 5 reports it as an issue of its own. */
  lemma CyclesAgree(cs: seq<Component>)
    requires UniqueNames(cs)
    ensures Cyclic(GraphOf(cs)) <==> RefsItself(cs) || Cyclic(PositionGraph(cs))
  {
    if RefsItself(cs) {
      SelfRefIsCycle(cs);
    }
    if Cyclic(PositionGraph(cs)) {
      var p :| Cycle(PositionGraph(cs), p);
      PositionCycleIsNameCycle(cs, p);
    }
    if Cyclic(GraphOf(cs)) && !RefsItself(cs) {
      var q :| Cycle(GraphOf(cs), q);
      NameCycleIsPositionCycle(cs, q);
    }
  }

  ghost predicate ReportsSelfOrCycle(issues: seq<Issue>) {
    exists k :: 0 <= k < |issues| && (issues[k].SelfRef? || issues[k].RefCycle?)
  }

  /** On unique names phase 5 reports a self reference or a cycle exactly when the reference
      graph is cyclic. */
  lemma ReportsIffCyclic(cs: seq<Component>, registry: Registry, issues: seq<Issue>)
    requires UniqueNames(cs)
    requires RefIssues(cs, registry, issues[..FirstCycle(issues)], |cs|, 0)
    requires forall k :: FirstCycle(issues) <= k < |issues| ==> issues[k].RefCycle?
    requires FirstCycle(issues) < |issues| <==> Cyclic(PositionGraph(cs))
    ensures ReportsSelfOrCycle(issues) <==> Cyclic(GraphOf(cs))
  {
    SplitReports(cs, registry, issues, FirstCycle(issues));
  }

  lemma SplitReports(cs: seq<Component>, registry: Registry, issues: seq<Issue>, split: nat)
    requires UniqueNames(cs) && split <= |issues|
    requires RefIssues(cs, registry, issues[..split], |cs|, 0)
    requires forall k :: split <= k < |issues| ==> issues[k].RefCycle?
    requires split < |issues| <==> Cyclic(PositionGraph(cs))
    ensures ReportsSelfOrCycle(issues) <==> Cyclic(GraphOf(cs))
  {
    CyclesAgree(cs);
    SelfRefsReported(cs, registry, issues[..split]);
    assert forall k :: 0 <= k < split ==> issues[..split][k] == issues[k];
    if split < |issues| {
      assert issues[split].RefCycle?;
    }
    forall k | 0 <= k < split
      ensures !issues[k].RefCycle?
    {
      assert DeservedBefore(cs, registry, issues[..split][k], |cs|, 0);
    }
  }

  lemma SelfRefsReported(cs: seq<Component>, registry: Registry, issues: seq<Issue>)
    requires RefIssues(cs, registry, issues, |cs|, 0)
    ensures RefsItself(cs) <==> exists k :: 0 <= k < |issues| && issues[k].SelfRef?
  {
    if RefsItself(cs) {
      var i :| 0 <= i < |cs| && HasRef(cs[i].refs, cs[i].name);
      var j :| 0 <= j < |cs[i].refs| && cs[i].refs[j].component == cs[i].name;
      assert DeservedBefore(cs, registry, SelfRef(i, j), |cs|, 0);
      var k :| 0 <= k < |issues| && issues[k] == SelfRef(i, j);
    }
    if k :| 0 <= k < |issues| && issues[k].SelfRef? {
      assert DeservedBefore(cs, registry, issues[k], |cs|, 0);
      assert HasRef(cs[issues[k].comp].refs, cs[issues[k].comp].name);
    }
  }

  /** A project that phase 5 has nothing to say about is ordered by both engines. */
  lemma SilentIsOrdered(cs: seq<Component>, registry: Registry)
    requires UniqueNames(cs) && AllWellReferred(cs, registry) && !Cyclic(PositionGraph(cs))
    ensures TopoSpec(cs).Ok? && FifoSpec(cs).Ok?
  {
    forall i, j | 0 <= i < |cs| && 0 <= j < |cs[i].refs|
      ensures cs[i].refs[j].component in Names(cs) && cs[i].refs[j].component != cs[i].name
    {
      assert WellReferred(cs, registry, cs[i], cs[i].refs[j]);
      var d :| LastNamed(cs, d, cs[i].refs[j].component);
      assert Names(cs)[d] == cs[d].name;
    }
    assert !RefsItself(cs);
    assert AllRefsKnown(cs) by {
      forall c | c in cs
        ensures KnownRefs(Names(cs), c.refs)
      {
        var i :| 0 <= i < |cs| && cs[i] == c;
      }
    }
    CyclesAgree(cs);
    ToposortSucceedsIffAcyclic(cs);
    FifoSucceedsIffAcyclic(cs);
  }

  /** Runs all four engines on one component list. */
  method RunAll(cs: seq<Component>, registry: Registry)
    returns (sorted: bool, queued: bool, ranked: bool, validated: bool)
    requires UniqueNames(cs)
    ensures sorted == ranked == validated
    ensures AllRefsKnown(cs) ==> queued == sorted
    ensures !AllRefsKnown(cs) ==> !queued
    ensures sorted <==> !Cyclic(GraphOf(cs))
  {
    var a := Toposort.Toposort(cs);
    ToposortSucceedsIffAcyclic(cs);
    var b := TopoSort(cs);
    FifoSucceedsIffAcyclic(cs);
    var c := AssignRanks(cs);
    var issues := Phase5Refs(cs, registry);
    ReportsIffCyclic(cs, registry, issues);
    validated := NoSelfOrCycle(issues);
    sorted, queued, ranked := a.Ok?, b.Ok?, c.Ok?;
  }

  method NoSelfOrCycle(issues: seq<Issue>) returns (validated: bool)
    ensures validated <==> !ReportsSelfOrCycle(issues)
  {
    validated := true;
    for k := 0 to |issues|
      invariant validated <==> forall i :: 0 <= i < k ==> !issues[i].SelfRef? && !issues[i].RefCycle?
    {
      if issues[k].SelfRef? || issues[k].RefCycle? {
        validated := false;
      }
    }
  }
}

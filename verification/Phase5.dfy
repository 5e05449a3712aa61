/** Phase 5 of the validator: cross-component references, and the three-colour DFS that
    reports reference cycles. Nodes are positions in the component list. */
module Phase5 {
  import opened Order
  import opened RefGraph
  import opened Components

  datatype Issue =
    | SelfRef(comp: nat, ref: nat)
    | UnknownComponent(comp: nat, ref: nat)
    | UnknownOutput(comp: nat, ref: nat)
    | RefCycle(names: seq<string>, at: int)

  // ---------------------------------------------------------------- the graph of positions

  /** `nameIdx`: for a name declared twice the last position wins. */
  function NameIndex(cs: seq<Component>): (m: map<string, int>)
    ensures forall n :: n in m <==> n in Names(cs)
    ensures forall n :: n in m ==> 0 <= m[n] < |cs| && cs[m[n]].name == n
  {
    if cs == [] then
      map[]
    else
      var init := cs[..|cs| - 1];
      assert Names(cs) == Names(init) + [cs[|cs| - 1].name];
      NameIndex(init)[cs[|cs| - 1].name := |cs| - 1]
  }

  /** The positions the references lead to from `u`, unknown and self references left out. */
  function Successors(idx: map<string, int>, refs: seq<Ref>, u: int): seq<int> {
    if refs == [] then
      []
    else
      var name := refs[|refs| - 1].component;
      Successors(idx, refs[..|refs| - 1], u) + if name in idx && idx[name] != u then [idx[name]] else []
  }

  function PositionGraph(cs: seq<Component>): Graph<int> {
    var idx := NameIndex(cs);
    map u | 0 <= u < |cs| :: Successors(idx, cs[u].refs, u)
  }

  lemma SuccessorsContain(idx: map<string, int>, refs: seq<Ref>, u: int, v: int)
    ensures v in Successors(idx, refs, u) <==>
            exists j :: 0 <= j < |refs| && refs[j].component in idx && idx[refs[j].component] == v && v != u
  {
    if refs != [] {
      var init := refs[..|refs| - 1];
      SuccessorsContain(idx, init, u, v);
      if v in Successors(idx, init, u) {
        var j :| 0 <= j < |init| && init[j].component in idx && idx[init[j].component] == v && v != u;
        assert refs[j] == init[j];
      }
      if j :| 0 <= j < |refs| && refs[j].component in idx && idx[refs[j].component] == v && v != u {
        if j < |init| {
          assert init[j] == refs[j];
        }
      }
    }
  }

  // ---------------------------------------------------------------- DFS state

  /** `stack` is the current DFS path; `done` lists the finished nodes in finishing order. */
  ghost predicate DfsState(g: Graph<int>, color: seq<int>, parent: seq<int>, stack: seq<int>, done: seq<int>) {
    && |color| == |parent|
    && (forall i :: i in g <==> 0 <= i < |color|)
    && Distinct(stack) && Distinct(done)
    && Colored(color, stack, done)
    && (forall k :: 0 < k < |stack| ==> Linked(g, parent, stack[k - 1], stack[k]))
  }

  ghost predicate Colored(color: seq<int>, stack: seq<int>, done: seq<int>) {
    && (forall i :: i in stack <==> 0 <= i < |color| && color[i] == 1)
    && (forall i :: i in done <==> 0 <= i < |color| && color[i] == 2)
    && (forall i :: 0 <= i < |color| ==> 0 <= color[i] <= 2)
  }

  ghost predicate Linked(g: Graph<int>, parent: seq<int>, a: int, b: int) {
    0 <= b < |parent| && parent[b] == a && Edge(g, a, b)
  }

  ghost predicate CanEnter(g: Graph<int>, color: seq<int>, parent: seq<int>, stack: seq<int>, u: int) {
    && 0 <= u < |color| && color[u] == 0
    && (stack != [] ==> Linked(g, parent, stack[|stack| - 1], u))
  }

  lemma Enter(g: Graph<int>, color: seq<int>, parent: seq<int>, stack: seq<int>, done: seq<int>, u: int)
    requires DfsState(g, color, parent, stack, done) && CanEnter(g, color, parent, stack, u)
    ensures DfsState(g, color[u := 1], parent, stack + [u], done)
  {
    var longer := stack + [u];
    assert u !in stack && u !in done;
    forall k | 0 < k < |longer|
      ensures Linked(g, parent, longer[k - 1], longer[k])
    {
      if k < |stack| {
        assert Linked(g, parent, stack[k - 1], stack[k]);
      }
    }
    assert Colored(color[u := 1], longer, done);
  }

  lemma Leave(g: Graph<int>, color: seq<int>, parent: seq<int>, stack: seq<int>, done: seq<int>, u: int)
    requires DfsState(g, color, parent, stack + [u], done)
    ensures 0 <= u < |color| && DfsState(g, color[u := 2], parent, stack, done + [u])
  {
    var longer := stack + [u];
    assert longer[|stack|] == u && u in longer;
    DistinctParts(stack, [u]);
    assert u !in stack;
    assert u !in done;
    forall k | 0 < k < |stack|
      ensures Linked(g, parent, stack[k - 1], stack[k])
    {
      assert longer[k - 1] == stack[k - 1] && longer[k] == stack[k];
    }
    assert forall i :: i in stack <==> i in longer && i != u;
    assert Colored(color[u := 2], stack, done + [u]);
  }

  lemma SetParent(g: Graph<int>, color: seq<int>, parent: seq<int>, stack: seq<int>, done: seq<int>, u: int, v: int)
    requires DfsState(g, color, parent, stack + [u], done)
    requires Edge(g, u, v) && 0 <= v < |color| && color[v] == 0
    ensures DfsState(g, color, parent[v := u], stack + [u], done)
    ensures CanEnter(g, color, parent[v := u], stack + [u], v)
  {
    var longer := stack + [u];
    assert v !in longer;
    forall k | 0 < k < |longer|
      ensures Linked(g, parent[v := u], longer[k - 1], longer[k])
    {
      assert Linked(g, parent, longer[k - 1], longer[k]) && longer[k] in longer;
    }
  }

  // ---------------------------------------------------------------- cycles

  function Keyed(names: seq<string>): string {
    if names == [] then ""
    else if |names| == 1 then names[0]
    else names[0] + ['\U{2192}'] + Keyed(names[1..])
  }

  function ChainNames(cs: seq<Component>, chain: seq<int>): seq<string>
    requires forall i :: i in chain ==> 0 <= i < |cs|
  {
    seq(|chain|, k requires 0 <= k < |chain| => assert chain[k] in chain; cs[chain[k]].name)
  }

  /** `chain` is a cycle without its closing repetition: a path over references whose nodes
      are distinct, with a reference from its last node back to its first. */
  ghost predicate SimpleCycle(g: Graph<int>, chain: seq<int>) {
    && Walk(g, chain) && |chain| >= 2 && Distinct(chain)
    && Edge(g, chain[|chain| - 1], chain[0])
  }

  ghost predicate Reports(cs: seq<Component>, issue: Issue, chain: seq<int>) {
    && (forall i :: i in chain ==> 0 <= i < |cs|)
    && SimpleCycle(PositionGraph(cs), chain)
    && issue == RefCycle(ChainNames(cs, chain) + [cs[chain[0]].name], chain[0])
  }

  ghost predicate Genuine(cs: seq<Component>, issue: Issue) {
    exists chain :: Reports(cs, issue, chain)
  }

  lemma ParentOnPath(g: Graph<int>, color: seq<int>, parent: seq<int>, stack: seq<int>, done: seq<int>, k: nat)
    requires DfsState(g, color, parent, stack, done) && 0 < k < |stack|
    ensures 0 <= stack[k] < |parent| && parent[stack[k]] == stack[k - 1] && 0 <= stack[k - 1]
    ensures [stack[k - 1]] + stack[k..] == stack[k - 1..]
  {
    assert Linked(g, parent, stack[k - 1], stack[k]);
    assert stack[k - 1] in stack;
  }

  lemma StackIsWalk(g: Graph<int>, color: seq<int>, parent: seq<int>, stack: seq<int>, done: seq<int>, k: nat)
    requires DfsState(g, color, parent, stack, done) && k < |stack|
    ensures Walk(g, stack[k..]) && Distinct(stack[k..])
  {
    var chain := stack[k..];
    forall i | 0 <= i < |chain|
      ensures chain[i] in g
    {
      assert chain[i] == stack[k + i] && stack[k + i] in stack;
    }
    forall i | 0 <= i < |chain| - 1
      ensures Edge(g, chain[i], chain[i + 1])
    {
      assert Linked(g, parent, stack[k + i], stack[k + i + 1]);
    }
  }

  /** Every reported cycle is genuine, no two have the same rendering, and the renderings are
      those remembered. */
  ghost predicate Reported(cs: seq<Component>, issues: seq<Issue>, reported: set<string>) {
    AllGenuine(cs, issues) && Remembered(issues, reported) && DistinctRenderings(issues)
  }

  ghost predicate AllGenuine(cs: seq<Component>, issues: seq<Issue>) {
    forall i :: 0 <= i < |issues| ==> issues[i].RefCycle? && Genuine(cs, issues[i])
  }

  ghost predicate Remembered(issues: seq<Issue>, reported: set<string>) {
    && (forall i :: 0 <= i < |issues| ==> Rendering(issues[i]) in reported)
    && (forall key :: key in reported ==> Renders(issues, key))
  }

  ghost predicate DistinctRenderings(issues: seq<Issue>) {
    forall i, j :: 0 <= i < j < |issues| ==> Rendering(issues[i]) != Rendering(issues[j])
  }

  ghost predicate Renders(issues: seq<Issue>, key: string) {
    exists i :: 0 <= i < |issues| && Rendering(issues[i]) == key
  }

  function Rendering(issue: Issue): string {
    if issue.RefCycle? then Keyed(issue.names) else ""
  }

  lemma RememberedNext(issues: seq<Issue>, reported: set<string>, issue: Issue)
    requires Remembered(issues, reported)
    ensures Remembered(issues + [issue], reported + {Rendering(issue)})
  {
    var more := issues + [issue];
    assert more[|issues|] == issue;
    forall key | key in reported + {Rendering(issue)}
      ensures Renders(more, key)
    {
      if key in reported {
        var i :| 0 <= i < |issues| && Rendering(issues[i]) == key;
        assert more[i] == issues[i];
      }
    }
  }

  lemma ReportedNext(cs: seq<Component>, issues: seq<Issue>, reported: set<string>, issue: Issue, chain: seq<int>)
    requires Reported(cs, issues, reported) && Reports(cs, issue, chain) && Rendering(issue) !in reported
    ensures Reported(cs, issues + [issue], reported + {Rendering(issue)})
  {
    var more := issues + [issue];
    assert Genuine(cs, issue);
    RememberedNext(issues, reported, issue);
    forall i | 0 <= i < |more|
      ensures more[i].RefCycle? && Genuine(cs, more[i])
      ensures i < |issues| ==> Rendering(more[i]) != Rendering(issue)
    {
      assert i < |issues| ==> more[i] == issues[i];
    }
  }

  // ---------------------------------------------------------------- which cycles are covered

  /** Names that make a rendering readable: unique and without the arrow. */
  ghost predicate Legible(cs: seq<Component>) {
    UniqueNames(cs) && forall i :: 0 <= i < |cs| ==> '\U{2192}' !in cs[i].name
  }

  /** A reported cycle goes through both `u` and `v`. */
  ghost predicate Through(cs: seq<Component>, issues: seq<Issue>, u: int, v: int) {
    exists k, chain :: ReportedAt(cs, issues, k, chain) && u in chain && v in chain
  }

  ghost predicate ReportedAt(cs: seq<Component>, issues: seq<Issue>, k: int, chain: seq<int>) {
    0 <= k < |issues| && Reports(cs, issues[k], chain)
  }

  /** Something is reported, and with legible names it goes through both `u` and `v`. */
  ghost predicate Accounted(cs: seq<Component>, issues: seq<Issue>, u: int, v: int) {
    issues != [] && (Legible(cs) ==> Through(cs, issues, u, v))
  }

  lemma AccountedGrows(cs: seq<Component>, before: seq<Issue>, after: seq<Issue>, u: int, v: int)
    requires Accounted(cs, before, u, v) && before <= after
    ensures Accounted(cs, after, u, v)
  {
    if Legible(cs) {
      var k, chain :| ReportedAt(cs, before, k, chain) && u in chain && v in chain;
      assert ReportedAt(cs, after, k, chain);
    }
  }

  /** Text up to the arrow determines where the arrow is. */
  lemma ArrowAt(x: string, restX: string, y: string, restY: string)
    requires x + ['\U{2192}'] + restX == y + ['\U{2192}'] + restY && '\U{2192}' !in x && '\U{2192}' !in y
    ensures x == y && restX == restY
  {
    var s := x + ['\U{2192}'] + restX;
    assert s[|x|] == '\U{2192}' && s[|y|] == '\U{2192}';
    assert forall i :: 0 <= i < |x| ==> s[i] == x[i];
    assert forall i :: 0 <= i < |y| ==> s[i] == y[i];
    assert |x| == |y|;
    assert x == s[..|x|] && y == s[..|y|] && restX == s[|x| + 1..] && restY == s[|y| + 1..];
  }

  ghost predicate NoArrow(names: seq<string>) {
    forall i :: 0 <= i < |names| ==> '\U{2192}' !in names[i]
  }

  lemma KeyedArrow(names: seq<string>)
    requires names != [] && NoArrow(names)
    ensures '\U{2192}' in Keyed(names) <==> |names| > 1
  {
    if |names| > 1 {
      assert Keyed(names)[|names[0]|] == '\U{2192}';
    }
  }

  /** Names without the arrow can be read back from their rendering. */
  lemma {:induction false} KeyedInjective(a: seq<string>, b: seq<string>)
    requires a != [] && b != [] && NoArrow(a) && NoArrow(b) && Keyed(a) == Keyed(b)
    ensures a == b
  {
    KeyedArrow(a);
    KeyedArrow(b);
    if |a| > 1 {
      ArrowAt(a[0], Keyed(a[1..]), b[0], Keyed(b[1..]));
      KeyedInjective(a[1..], b[1..]);
      assert a == [a[0]] + a[1..] && b == [b[0]] + b[1..];
    }
  }

  lemma SameChain(cs: seq<Component>, a: seq<int>, b: seq<int>)
    requires UniqueNames(cs) && (forall i :: i in a ==> 0 <= i < |cs|) && (forall i :: i in b ==> 0 <= i < |cs|)
    requires ChainNames(cs, a) == ChainNames(cs, b)
    ensures a == b
  {
    assert |ChainNames(cs, a)| == |a| && |ChainNames(cs, b)| == |b|;
    forall i | 0 <= i < |a|
      ensures a[i] == b[i]
    {
      assert a[i] in a && b[i] in b;
      assert ChainNames(cs, a)[i] == ChainNames(cs, b)[i];
      assert Names(cs)[a[i]] == Names(cs)[b[i]];
    }
  }

  lemma ReportNames(cs: seq<Component>, issue: Issue, chain: seq<int>)
    requires Legible(cs) && Reports(cs, issue, chain)
    ensures issue.names != [] && NoArrow(issue.names) && issue.names[..|chain|] == ChainNames(cs, chain)
    ensures |issue.names| == |chain| + 1
  {
    forall i | 0 <= i < |issue.names|
      ensures '\U{2192}' !in issue.names[i]
    {
      assert i < |chain| ==> chain[i] in chain;
      assert chain[0] in chain;
    }
  }

  /** With legible names a rendering stands for one cycle only. */
  lemma SameRenderingSameCycle(cs: seq<Component>, a: Issue, b: Issue, p: seq<int>, q: seq<int>)
    requires Legible(cs) && Reports(cs, a, p) && Reports(cs, b, q) && Rendering(a) == Rendering(b)
    ensures p == q
  {
    ReportNames(cs, a, p);
    ReportNames(cs, b, q);
    KeyedInjective(a.names, b.names);
    SameChain(cs, p, q);
  }

  /** A cycle whose rendering is remembered is accounted for, whether reported now or before. */
  lemma RememberedIsAccounted(cs: seq<Component>, issues: seq<Issue>, reported: set<string>, issue: Issue,
                              chain: seq<int>, u: int, v: int)
    requires Reported(cs, issues, reported) && Reports(cs, issue, chain) && Rendering(issue) in reported
    requires u in chain && v in chain
    ensures Accounted(cs, issues, u, v)
  {
    assert Renders(issues, Rendering(issue));
    var i :| 0 <= i < |issues| && Rendering(issues[i]) == Rendering(issue);
    if Legible(cs) {
      assert Genuine(cs, issues[i]);
      var other :| Reports(cs, issues[i], other);
      SameRenderingSameCycle(cs, issues[i], issue, other, chain);
      assert ReportedAt(cs, issues, i, chain);
    }
  }

  // ---------------------------------------------------------------- finished nodes

  /** A finished node refers only to nodes finished before it, but for references that close a
      cycle accounted for. */
  ghost predicate FinishedInOrder(cs: seq<Component>, issues: seq<Issue>, done: seq<int>) {
    forall k :: 0 <= k < |done| ==> RefersTo(cs, issues, done[k], done[..k])
  }

  ghost predicate RefersTo(cs: seq<Component>, issues: seq<Issue>, u: int, targets: seq<int>) {
    forall v :: Edge(PositionGraph(cs), u, v) ==> v in targets || Accounted(cs, issues, u, v)
  }

  lemma FinishedGrows(cs: seq<Component>, before: seq<Issue>, after: seq<Issue>, done: seq<int>)
    requires FinishedInOrder(cs, before, done) && before <= after
    ensures FinishedInOrder(cs, after, done)
  {
    forall k | 0 <= k < |done|
      ensures RefersTo(cs, after, done[k], done[..k])
    {
      RefersGrows(cs, before, after, done[k], done[..k]);
    }
  }

  lemma RefersGrows(cs: seq<Component>, before: seq<Issue>, after: seq<Issue>, u: int, targets: seq<int>)
    requires RefersTo(cs, before, u, targets) && before <= after
    ensures RefersTo(cs, after, u, targets)
  {
    forall v | Edge(PositionGraph(cs), u, v)
      ensures v in targets || Accounted(cs, after, u, v)
    {
      if v !in targets {
        AccountedGrows(cs, before, after, u, v);
      }
    }
  }

  ghost predicate OnPath(cs: seq<Component>, stack: seq<int>) {
    forall i :: i in stack ==> 0 <= i < |cs|
  }

  lemma PathInRange(cs: seq<Component>, color: seq<int>, parent: seq<int>, stack: seq<int>, done: seq<int>)
    requires |color| == |cs| && DfsState(PositionGraph(cs), color, parent, stack, done)
    ensures OnPath(cs, stack)
  {
  }

  /** The issue that the cycle closed at `v`, a node of the path, deserves. */
  ghost function ClosingCycle(cs: seq<Component>, stack: seq<int>, v: int): Issue
    requires OnPath(cs, stack) && v in stack
  {
    var chain := stack[Position(stack, v)..];
    assert forall i :: i in chain ==> i in stack;
    RefCycle(ChainNames(cs, chain) + [cs[v].name], v)
  }

  /** The stretch of the path from `v` on is a cycle once its end refers back to `v`. */
  lemma StretchReports(cs: seq<Component>, color: seq<int>, parent: seq<int>, stack: seq<int>, done: seq<int>, v: int)
    requires |color| == |cs| && DfsState(PositionGraph(cs), color, parent, stack, done) && v in stack
    requires stack[|stack| - 1] != v && Edge(PositionGraph(cs), stack[|stack| - 1], v)
    ensures var chain := stack[Position(stack, v)..];
            && (forall i :: i in chain ==> 0 <= i < |cs|)
            && Reports(cs, RefCycle(ChainNames(cs, chain) + [cs[v].name], v), chain)
  {
    var k := Position(stack, v);
    var chain := stack[k..];
    StackIsWalk(PositionGraph(cs), color, parent, stack, done, k);
    forall i | i in chain
      ensures 0 <= i < |cs|
    {
      assert i in PositionGraph(cs);
    }
    assert chain[0] == v && chain[|chain| - 1] == stack[|stack| - 1];
  }

  lemma ClosingReports(cs: seq<Component>, color: seq<int>, parent: seq<int>, stack: seq<int>, done: seq<int>, v: int)
    requires |color| == |cs| && DfsState(PositionGraph(cs), color, parent, stack, done) && v in stack
    requires stack[|stack| - 1] != v && Edge(PositionGraph(cs), stack[|stack| - 1], v)
    ensures var chain := stack[Position(stack, v)..];
            && OnPath(cs, stack) && OnPath(cs, chain) && chain[0] == v && v in chain && stack[|stack| - 1] in chain
            && Reports(cs, ClosingCycle(cs, stack, v), chain)
  {
    var chain := stack[Position(stack, v)..];
    PathInRange(cs, color, parent, stack, done);
    StretchReports(cs, color, parent, stack, done, v);
    assert chain[|chain| - 1] == stack[|stack| - 1];
  }

  ghost predicate Handled(cs: seq<Component>, issues: seq<Issue>, ref: Ref, u: int, done: seq<int>) {
    var idx := NameIndex(cs);
    ref.component in idx && idx[ref.component] != u ==>
      idx[ref.component] in done || Accounted(cs, issues, u, idx[ref.component])
  }

  ghost predicate HandledUpTo(cs: seq<Component>, issues: seq<Issue>, u: int, done: seq<int>, j: int) {
    && 0 <= u < |cs| && 0 <= j <= |cs[u].refs|
    && forall i :: 0 <= i < j ==> Handled(cs, issues, cs[u].refs[i], u, done)
  }

  lemma HandledGrows(cs: seq<Component>, before: seq<Issue>, after: seq<Issue>, ref: Ref, u: int, done: seq<int>,
                     more: seq<int>)
    requires Handled(cs, before, ref, u, done) && before <= after && done <= more
    ensures Handled(cs, after, ref, u, more)
  {
    var idx := NameIndex(cs);
    assert forall x :: x in done ==> x in more;
    if ref.component in idx && Accounted(cs, before, u, idx[ref.component]) {
      AccountedGrows(cs, before, after, u, idx[ref.component]);
    }
  }

  lemma HandledNext(cs: seq<Component>, before: seq<Issue>, after: seq<Issue>, u: int, done: seq<int>, more: seq<int>,
                    j: int)
    requires 0 <= u < |cs| && 0 <= j < |cs[u].refs| && before <= after && done <= more
    requires HandledUpTo(cs, before, u, done, j) && Handled(cs, after, cs[u].refs[j], u, more)
    ensures HandledUpTo(cs, after, u, more, j + 1)
  {
    forall i | 0 <= i < j
      ensures Handled(cs, after, cs[u].refs[i], u, more)
    {
      HandledGrows(cs, before, after, cs[u].refs[i], u, done, more);
    }
  }

  lemma AllHandled(cs: seq<Component>, issues: seq<Issue>, done: seq<int>, u: int)
    requires 0 <= u < |cs| && HandledUpTo(cs, issues, u, done, |cs[u].refs|)
    ensures RefersTo(cs, issues, u, done)
  {
    var idx, refs := NameIndex(cs), cs[u].refs;
    forall v | Edge(PositionGraph(cs), u, v)
      ensures v in done || Accounted(cs, issues, u, v)
    {
      SuccessorsContain(idx, refs, u, v);
      var j :| 0 <= j < |refs| && refs[j].component in idx && idx[refs[j].component] == v && v != u;
      assert Handled(cs, issues, refs[j], u, done);
    }
  }

  lemma FinishNext(cs: seq<Component>, issues: seq<Issue>, done: seq<int>, u: int)
    requires FinishedInOrder(cs, issues, done) && RefersTo(cs, issues, u, done)
    ensures FinishedInOrder(cs, issues, done + [u])
  {
    var longer := done + [u];
    forall k | 0 <= k < |longer|
      ensures RefersTo(cs, issues, longer[k], longer[..k])
    {
      if k < |done| {
        assert RefersTo(cs, issues, done[k], done[..k]);
        assert longer[..k] == done[..k];
      } else {
        assert longer[..k] == done;
      }
    }
  }

  /** The object `detectCycles` works on: the colours, the parent links and the report. */
  class CycleFinder {
    const comps: seq<Component>
    const nameIdx: map<string, int>
    const color: array<int>
    const parent: array<int>
    var reported: set<string>
    var issues: seq<Issue>
    ghost var stack: seq<int>
    ghost var done: seq<int>

    ghost predicate Valid()
      reads this, color, parent
    {
      && color != parent
      && color.Length == |comps| && nameIdx == NameIndex(comps)
      && DfsState(PositionGraph(comps), color[..], parent[..], stack, done)
      && Reported(comps, issues, reported)
      && FinishedInOrder(comps, issues, done)
    }

    constructor (comps: seq<Component>)
      ensures Valid() && this.comps == comps && issues == [] && stack == [] && done == []
      ensures fresh(color) && fresh(parent)
    {
      this.comps := comps;
      nameIdx := NameIndex(comps);
      color := new int[|comps|](i => 0);
      parent := new int[|comps|](i => -1);
      reported, issues, stack, done := {}, [], [], [];
    }

    /** Walks from `u` back to `v` over the parent links. The walk always arrives, so the
        chain is the part of the path that starts at `v` and nothing is put before it. */
    method ChainBack(u: int, v: int) returns (chain: seq<int>)
      requires Valid() && stack != [] && u == stack[|stack| - 1] && v in stack
      ensures chain == stack[Position(stack, v)..]
    {
      ghost var k := Position(stack, v);
      ghost var g := PositionGraph(comps);
      var cur := u;
      chain := [u];
      ghost var at := |stack| - 1;
      while cur != v
        invariant k <= at < |stack| && cur == stack[at] && chain == stack[at..]
        decreases at
      {
        ParentOnPath(g, color[..], parent[..], stack, done, at);
        var p := parent[cur];
        if p == -1 {
          break;
        }
        chain := [p] + chain;
        cur := p;
        at := at - 1;
        if cur == v {
          break;
        }
      }
      assert at == k;
      if chain[0] != v {
        chain := [v] + chain;
      }
    }

    /** Reports the cycle that the reference from `u`, the end of the path, closes at `v`,
        unless one with the same rendering has been reported. */
    method EmitCycle(u: int, v: int)
      requires Valid() && stack != [] && u == stack[|stack| - 1] && v in stack
      requires u != v && Edge(PositionGraph(comps), u, v)
      modifies this`issues, this`reported
      ensures Valid() && Accounted(comps, issues, u, v)
      ensures OnPath(comps, stack) && reported == old(reported) + {Rendering(ClosingCycle(comps, stack, v))}
      ensures issues == old(issues) + if reported == old(reported) then [] else [ClosingCycle(comps, stack, v)]
    {
      ClosingReports(comps, color[..], parent[..], stack, done, v);
      var chain := ChainBack(u, v);
      ghost var issue := ClosingCycle(comps, stack, v);
      var names := ChainNames(comps, chain) + [comps[v].name];
      var key := Keyed(names);
      if key in reported {
        RememberedIsAccounted(comps, issues, reported, issue, chain, u, v);
        assert reported == reported + {key};
        return;
      }
      ReportedNext(comps, issues, reported, issue, chain);
      FinishedGrows(comps, issues, issues + [issue], done);
      reported := reported + {key};
      issues := issues + [RefCycle(names, chain[0])];
      RememberedIsAccounted(comps, issues, reported, issue, chain, u, v);
    }

    ghost function White(): set<int>
      reads color
    {
      set i | 0 <= i < color.Length && color[i] == 0
    }

    /** What every step of the search keeps: the path, what is finished and what is reported. */
    twostate predicate Extends(path: seq<int>)
      reads this, color
    {
      stack == path && old(done) <= done && old(issues) <= issues && White() <= old(White())
    }

    /** Follows one reference from `u`, the end of the path: enters an unvisited node,
        reports a cycle at a node on the path. */
    method Follow(u: int, v: int)
      requires Valid() && stack != [] && u == stack[|stack| - 1]
      requires u != v && Edge(PositionGraph(comps), u, v)
      modifies this`issues, this`reported, this`stack, this`done, color, parent
      ensures Valid() && Extends(old(stack))
      ensures v in done || Accounted(comps, issues, u, v)
      decreases White(), 1
    {
      ghost var g := PositionGraph(comps);
      assert v in g;
      if color[v] == 0 {
        ghost var path := stack[..|stack| - 1];
        assert stack == path + [u];
        SetParent(g, color[..], parent[..], path, done, u, v);
        ghost var linked := parent[..][v := u];
        parent[v] := u;
        assert parent[..] == linked;
        Dfs(v);
      } else if color[v] == 1 {
        assert color[..][v] == 1;
        EmitCycle(u, v);
      } else {
        assert color[..][v] == 2;
      }
    }

    /** Turns `u` gray: it joins the path. */
    method Begin(u: int)
      requires Valid() && CanEnter(PositionGraph(comps), color[..], parent[..], stack, u)
      modifies this`stack, color
      ensures Valid() && Extends(old(stack) + [u])
      ensures u in old(White()) && u !in White()
    {
      Enter(PositionGraph(comps), color[..], parent[..], stack, done, u);
      ghost var entered := color[..][u := 1];
      color[u] := 1;
      assert color[..] == entered;
      stack := stack + [u];
    }

    /** Turns `u` black: everything it refers to has been followed. */
    method Finish(u: int, ghost path: seq<int>)
      requires Valid() && stack == path + [u]
      requires RefersTo(comps, issues, u, done)
      modifies this`stack, this`done, color
      ensures Valid() && Extends(path) && u in done
    {
      ghost var g := PositionGraph(comps);
      FinishNext(comps, issues, done, u);
      Leave(g, color[..], parent[..], path, done, u);
      ghost var left := color[..][u := 2];
      color[u] := 2;
      assert color[..] == left;
      stack := path;
      done := done + [u];
    }

    /** Looks up one reference of `u` and follows it, unless it is unknown or to `u` itself. */
    method FollowRef(u: int, ref: Ref)
      requires Valid() && stack != [] && u == stack[|stack| - 1]
      requires 0 <= u < |comps| && ref in comps[u].refs
      modifies this`issues, this`reported, this`stack, this`done, color, parent
      ensures Valid() && Extends(old(stack))
      ensures Handled(comps, issues, ref, u, done)
      decreases White(), 2
    {
      var name := ref.component;
      if name !in nameIdx || nameIdx[name] == u {
        return;
      }
      var v := nameIdx[name];
      ghost var j :| 0 <= j < |comps[u].refs| && comps[u].refs[j] == ref;
      SuccessorsContain(nameIdx, comps[u].refs, u, v);
      Follow(u, v);
    }

    method Dfs(u: int)
      requires Valid() && CanEnter(PositionGraph(comps), color[..], parent[..], stack, u)
      modifies this`issues, this`reported, this`stack, this`done, color, parent
      ensures Valid() && Extends(old(stack)) && u in done
      decreases White(), 0
    {
      Begin(u);
      var refs := comps[u].refs;
      for j := 0 to |refs|
        invariant Valid() && Extends(old(stack) + [u]) && u !in White()
        invariant HandledUpTo(comps, issues, u, done, j)
      {
        ghost var before, finished := issues, done;
        FollowRef(u, refs[j]);
        HandledNext(comps, before, issues, u, finished, done, j);
      }
      AllHandled(comps, issues, done, u);
      Finish(u, old(stack));
    }

    /** Starts a search at every node no earlier search has reached. With legible names every
        cycle shares a reference with a reported one. */
    method DetectCycles()
      requires Valid() && stack == [] && done == [] && issues == []
      modifies this`issues, this`reported, this`stack, this`done, color, parent
      ensures Valid()
      ensures issues != [] <==> Cyclic(PositionGraph(comps))
      ensures Legible(comps) ==> EveryCycleMet(comps, issues)
    {
      for i := 0 to |comps|
        invariant Valid() && stack == []
        invariant forall k :: 0 <= k < i ==> k in done
      {
        if color[i] == 0 {
          Dfs(i);
        } else {
          assert color[..][i] == color[i];
          assert color[..][i] == 1 ==> i in stack;
        }
      }
      AllFinished(comps, done, issues, reported);
    }
  }

  /** Two consecutive nodes of the cycle `p` lie on one reported cycle. */
  ghost predicate Met(cs: seq<Component>, issues: seq<Issue>, p: seq<int>) {
    exists i :: 0 <= i < |p| - 1 && Through(cs, issues, p[i], p[i + 1])
  }

  ghost predicate EveryCycleMet(cs: seq<Component>, issues: seq<Issue>) {
    forall p :: Cycle(PositionGraph(cs), p) ==> Met(cs, issues, p)
  }

  ghost function FinishedAt(done: seq<int>, u: int): int {
    if u in done then Position(done, u) else -1
  }

  /** Around a cycle the finishing times cannot fall all the way. */
  lemma TimesRise(done: seq<int>, p: seq<int>) returns (i: nat)
    requires |p| >= 2 && p[0] == p[|p| - 1]
    ensures i < |p| - 1 && FinishedAt(done, p[i]) <= FinishedAt(done, p[i + 1])
  {
    i := 0;
    while FinishedAt(done, p[i]) > FinishedAt(done, p[i + 1])
      invariant i < |p| - 1 && FinishedAt(done, p[i]) <= FinishedAt(done, p[0]) - i
      decreases |p| - i
    {
      i := i + 1;
    }
  }

  /** A reference to a node finished later, or at the same time, is accounted for. */
  lemma LaterIsAccounted(cs: seq<Component>, issues: seq<Issue>, done: seq<int>, u: int, v: int)
    requires FinishedInOrder(cs, issues, done) && Edge(PositionGraph(cs), u, v) && u in done && v in done
    requires Position(done, u) <= Position(done, v)
    ensures Accounted(cs, issues, u, v)
  {
    var k := Position(done, u);
    assert RefersTo(cs, issues, done[k], done[..k]);
    if v in done[..k] {
      PositionWithin(done, k, v);
    }
  }

  lemma PositionWithin(s: seq<int>, k: nat, x: int)
    requires k <= |s| && x in s[..k]
    ensures x in s && Position(s, x) < k
  {
    if s[0] != x {
      assert s[..k][1..] == s[1..][..k - 1];
      PositionWithin(s[1..], k - 1, x);
    }
  }

  lemma CycleAccounted(cs: seq<Component>, issues: seq<Issue>, done: seq<int>, p: seq<int>) returns (i: nat)
    requires (forall k :: 0 <= k < |cs| ==> k in done) && FinishedInOrder(cs, issues, done)
    requires Cycle(PositionGraph(cs), p)
    ensures i < |p| - 1 && Accounted(cs, issues, p[i], p[i + 1])
  {
    i := TimesRise(done, p);
    assert Edge(PositionGraph(cs), p[i], p[i + 1]);
    LaterIsAccounted(cs, issues, done, p[i], p[i + 1]);
  }

  /** With every node finished, the report is empty exactly when there is no cycle, and with
      legible names it meets every cycle. */
  lemma AllFinished(cs: seq<Component>, done: seq<int>, issues: seq<Issue>, reported: set<string>)
    requires forall k :: 0 <= k < |cs| ==> k in done
    requires Reported(cs, issues, reported) && FinishedInOrder(cs, issues, done)
    ensures issues != [] <==> Cyclic(PositionGraph(cs))
    ensures Legible(cs) ==> EveryCycleMet(cs, issues)
  {
    forall p | Cycle(PositionGraph(cs), p)
      ensures issues != [] && (Legible(cs) ==> Met(cs, issues, p))
    {
      var i := CycleAccounted(cs, issues, done, p);
    }
    if issues != [] {
      assert Genuine(cs, issues[0]);
      var chain :| Reports(cs, issues[0], chain);
      WalkBackIsCyclic(PositionGraph(cs), chain, chain[0]);
    }
  }
}

/** `phase5RefsImpl`: one pass over every reference, then the cycle search. */
module RefValidation {
  import opened RefGraph
  import opened Components
  import opened Phase5

  /** The outputs each registered component type declares. */
  type Registry = map<string, set<string>>

  /** The issue a single reference deserves, if any. An output is only looked up when the
      type of the component it comes from is registered. */
  ghost predicate Deserves(cs: seq<Component>, registry: Registry, i: int, j: int, issue: Issue) {
    && 0 <= i < |cs| && 0 <= j < |cs[i].refs|
    && var ref, idx := cs[i].refs[j], NameIndex(cs);
       match issue
       case SelfRef(c, r) => c == i && r == j && ref.component == cs[i].name
       case UnknownComponent(c, r) => c == i && r == j && ref.component !in idx
       case UnknownOutput(c, r) =>
         && c == i && r == j
         && ref.component in idx && ref.component != cs[i].name
         && cs[idx[ref.component]].kind in registry
         && (ref.output == "" || ref.output !in registry[cs[idx[ref.component]].kind])
       case RefCycle(_, _) => false
  }

  ghost predicate Precedes(i: int, j: int, i': int, j': int) {
    i < i' || (i == i' && j < j')
  }

  ghost predicate DeservedBefore(cs: seq<Component>, registry: Registry, issue: Issue, i: int, j: int) {
    !issue.RefCycle? && Precedes(issue.comp, issue.ref, i, j) && Deserves(cs, registry, issue.comp, issue.ref, issue)
  }

  /** The issues of the references before position (`i`, `j`), each once, in declaration order. */
  ghost predicate RefIssues(cs: seq<Component>, registry: Registry, issues: seq<Issue>, i: int, j: int) {
    && (forall k :: 0 <= k < |issues| ==> DeservedBefore(cs, registry, issues[k], i, j))
    && (forall k, l :: 0 <= k < l < |issues| ==> DeservedBefore(cs, registry, issues[k], issues[l].comp, issues[l].ref))
    && (forall issue :: DeservedBefore(cs, registry, issue, i, j) ==> issue in issues)
  }

  lemma RefIssuesNext(cs: seq<Component>, registry: Registry, issues: seq<Issue>, i: nat, j: nat, found: seq<Issue>)
    requires RefIssues(cs, registry, issues, i, j) && |found| <= 1
    requires forall issue :: issue in found <==> Deserves(cs, registry, i, j, issue)
    ensures RefIssues(cs, registry, issues + found, i, j + 1)
  {
    var more := issues + found;
    forall k | 0 <= k < |more|
      ensures DeservedBefore(cs, registry, more[k], i, j + 1)
    {
      if k < |issues| {
        assert DeservedBefore(cs, registry, issues[k], i, j);
      } else {
        assert more[k] in found;
      }
    }
    forall k, l | 0 <= k < l < |more|
      ensures DeservedBefore(cs, registry, more[k], more[l].comp, more[l].ref)
    {
      if l < |issues| {
        assert DeservedBefore(cs, registry, issues[k], issues[l].comp, issues[l].ref);
      } else {
        assert more[l] in found && DeservedBefore(cs, registry, issues[k], i, j);
      }
    }
    forall issue | DeservedBefore(cs, registry, issue, i, j + 1)
      ensures issue in more
    {
      if !DeservedBefore(cs, registry, issue, i, j) {
        assert issue in found;
      }
    }
  }

  /** Where the cycles start in a report: phase 5 puts all other issues before them. */
  function FirstCycle(issues: seq<Issue>): (k: nat)
    ensures k <= |issues|
  {
    if issues == [] || issues[0].RefCycle? then 0 else 1 + FirstCycle(issues[1..])
  }

  lemma {:induction false} FirstCycleIs(issues: seq<Issue>, k: nat)
    requires k <= |issues| && (forall i :: 0 <= i < k ==> !issues[i].RefCycle?)
    requires k < |issues| ==> issues[k].RefCycle?
    ensures FirstCycle(issues) == k
  {
    if k > 0 {
      FirstCycleIs(issues[1..], k - 1);
    }
  }

  /** The last component of the name, the one the index keeps. */
  ghost predicate LastNamed(cs: seq<Component>, d: int, name: string) {
    0 <= d < |cs| && cs[d].name == name && forall e :: d < e < |cs| ==> cs[e].name != name
  }

  lemma {:induction false} IndexIsLast(cs: seq<Component>, name: string)
    requires name in NameIndex(cs)
    ensures LastNamed(cs, NameIndex(cs)[name], name)
  {
    var init, last := cs[..|cs| - 1], cs[|cs| - 1];
    if last.name != name {
      assert NameIndex(cs) == NameIndex(init)[last.name := |cs| - 1];
      IndexIsLast(init, name);
      LastNamedLonger(init, last, NameIndex(init)[name], name);
      assert cs == init + [last];
    }
  }

  lemma LastNamedLonger(init: seq<Component>, last: Component, d: int, name: string)
    requires LastNamed(init, d, name) && last.name != name
    ensures LastNamed(init + [last], d, name)
  {
  }

  /** The registry has no outputs for the component's type, or this one is among them. */
  predicate Offers(registry: Registry, c: Component, output: string) {
    c.kind in registry ==> output != "" && output in registry[c.kind]
  }

  /** The reference names another component, which offers the output referred to. */
  ghost predicate WellReferred(cs: seq<Component>, registry: Registry, c: Component, ref: Ref) {
    ref.component != c.name && exists d :: LastNamed(cs, d, ref.component) && Offers(registry, cs[d], ref.output)
  }

  ghost predicate AllWellReferred(cs: seq<Component>, registry: Registry) {
    forall i, j :: 0 <= i < |cs| && 0 <= j < |cs[i].refs| ==> WellReferred(cs, registry, cs[i], cs[i].refs[j])
  }

  /** Which issue a reference gets, without the index. */
  lemma IssueIs(cs: seq<Component>, registry: Registry, i: nat, j: nat)
    requires i < |cs| && j < |cs[i].refs|
    ensures var ref := cs[i].refs[j];
            && (Deserves(cs, registry, i, j, SelfRef(i, j)) <==> ref.component == cs[i].name)
            && (Deserves(cs, registry, i, j, UnknownComponent(i, j)) <==>
                forall c :: c in cs ==> c.name != ref.component)
            && (Deserves(cs, registry, i, j, UnknownOutput(i, j)) <==>
                ref.component != cs[i].name &&
                exists d :: LastNamed(cs, d, ref.component) && !Offers(registry, cs[d], ref.output))
  {
    var ref := cs[i].refs[j];
    if ref.component in NameIndex(cs) {
      IndexIsLast(cs, ref.component);
      assert cs[NameIndex(cs)[ref.component]] in cs;
      OneLast(cs, ref.component);
    } else {
      forall c | c in cs
        ensures c.name != ref.component
      {
        var k :| 0 <= k < |cs| && cs[k] == c;
        assert Names(cs)[k] == c.name;
      }
    }
  }

  lemma OneLast(cs: seq<Component>, name: string)
    ensures forall d, e :: LastNamed(cs, d, name) && LastNamed(cs, e, name) ==> d == e
  {
  }

  lemma WellReferredIff(cs: seq<Component>, registry: Registry, i: nat, j: nat)
    requires i < |cs| && j < |cs[i].refs|
    ensures WellReferred(cs, registry, cs[i], cs[i].refs[j]) <==> !exists issue :: Deserves(cs, registry, i, j, issue)
  {
    var ref := cs[i].refs[j];
    IssueIs(cs, registry, i, j);
    OneLast(cs, ref.component);
    if ref.component in NameIndex(cs) {
      IndexIsLast(cs, ref.component);
    }
    SomeNamed(cs, ref.component);
    if issue :| Deserves(cs, registry, i, j, issue) {
      assert issue in {SelfRef(i, j), UnknownComponent(i, j), UnknownOutput(i, j)};
    }
  }

  lemma SomeNamed(cs: seq<Component>, name: string)
    ensures (exists d :: LastNamed(cs, d, name)) ==> exists c :: c in cs && c.name == name
  {
    if d :| LastNamed(cs, d, name) {
      assert cs[d] in cs;
    }
  }

  lemma NoIssuesIff(cs: seq<Component>, registry: Registry, issues: seq<Issue>)
    requires RefIssues(cs, registry, issues, |cs|, 0)
    ensures issues == [] <==> AllWellReferred(cs, registry)
  {
    if issues == [] {
      forall i, j | 0 <= i < |cs| && 0 <= j < |cs[i].refs|
        ensures WellReferred(cs, registry, cs[i], cs[i].refs[j])
      {
        WellReferredIff(cs, registry, i, j);
        if issue :| Deserves(cs, registry, i, j, issue) {
          assert DeservedBefore(cs, registry, issue, |cs|, 0);
        }
      }
    } else {
      var issue := issues[0];
      assert DeservedBefore(cs, registry, issue, |cs|, 0);
      WellReferredIff(cs, registry, issue.comp, issue.ref);
    }
  }

  method Phase5Refs(cs: seq<Component>, registry: Registry) returns (issues: seq<Issue>)
    ensures RefIssues(cs, registry, issues[..FirstCycle(issues)], |cs|, 0)
    ensures forall k :: FirstCycle(issues) <= k < |issues| ==> issues[k].RefCycle? && Genuine(cs, issues[k])
    ensures forall k, l :: FirstCycle(issues) <= k < l < |issues| ==> Rendering(issues[k]) != Rendering(issues[l])
    ensures FirstCycle(issues) < |issues| <==> Cyclic(PositionGraph(cs))
    ensures Legible(cs) ==> EveryCycleMet(cs, issues)
    ensures issues == [] <==> AllWellReferred(cs, registry) && !Cyclic(PositionGraph(cs))
  {
    var nameIdx := NameIndex(cs);
    issues := [];
    for i := 0 to |cs|
      invariant RefIssues(cs, registry, issues, i, 0)
    {
      var comp := cs[i];
      for j := 0 to |comp.refs|
        invariant RefIssues(cs, registry, issues, i, j)
      {
        var found := CheckRef(cs, registry, nameIdx, i, j);
        RefIssuesNext(cs, registry, issues, i, j, found);
        issues := issues + found;
      }
    }
    var finder := new CycleFinder(cs);
    finder.DetectCycles();
    ghost var refIssues := issues;
    issues := issues + finder.issues;
    CyclesLast(cs, registry, refIssues, finder.issues);
    NoIssuesIff(cs, registry, refIssues);
    if Legible(cs) {
      MetLater(cs, refIssues, finder.issues);
    }
  }

  lemma MetLater(cs: seq<Component>, a: seq<Issue>, b: seq<Issue>)
    requires EveryCycleMet(cs, b)
    ensures EveryCycleMet(cs, a + b)
  {
    forall p | Cycle(PositionGraph(cs), p)
      ensures Met(cs, a + b, p)
    {
      assert Met(cs, b, p);
      var i :| 0 <= i < |p| - 1 && Through(cs, b, p[i], p[i + 1]);
      ThroughLater(cs, a, b, p[i], p[i + 1]);
    }
  }

  lemma ThroughLater(cs: seq<Component>, a: seq<Issue>, b: seq<Issue>, u: int, v: int)
    requires Through(cs, b, u, v)
    ensures Through(cs, a + b, u, v)
  {
    var k, chain :| ReportedAt(cs, b, k, chain) && u in chain && v in chain;
    assert (a + b)[|a| + k] == b[k];
    assert ReportedAt(cs, a + b, |a| + k, chain);
  }

  lemma CyclesLast(cs: seq<Component>, registry: Registry, a: seq<Issue>, b: seq<Issue>)
    requires RefIssues(cs, registry, a, |cs|, 0) && forall k :: 0 <= k < |b| ==> b[k].RefCycle?
    ensures FirstCycle(a + b) == |a| && (a + b)[..|a|] == a
  {
    forall k | 0 <= k < |a|
      ensures !(a + b)[k].RefCycle?
    {
      assert DeservedBefore(cs, registry, a[k], |cs|, 0);
    }
    FirstCycleIs(a + b, |a|);
  }

  method CheckRef(cs: seq<Component>, registry: Registry, nameIdx: map<string, int>, i: nat, j: nat)
    returns (found: seq<Issue>)
    requires nameIdx == NameIndex(cs) && i < |cs| && j < |cs[i].refs|
    ensures forall issue :: issue in found <==> Deserves(cs, registry, i, j, issue)
    ensures |found| <= 1
  {
    var comp, ref := cs[i], cs[i].refs[j];
    assert Names(cs)[i] == cs[i].name;
    if ref.component == comp.name {
      return [SelfRef(i, j)];
    }
    if ref.component !in nameIdx {
      return [UnknownComponent(i, j)];
    }
    var target := cs[nameIdx[ref.component]];
    if target.kind !in registry {
      return [];
    }
    if ref.output == "" {
      return [UnknownOutput(i, j)];
    }
    if ref.output !in registry[target.kind] {
      return [UnknownOutput(i, j)];
    }
    return [];
  }
}

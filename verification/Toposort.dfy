/** `upstream.Toposort`: Kahn's algorithm with a ready list kept sorted by name. */
module Toposort {
  import opened Order
  import opened RefGraph
  import opened Components

  // ---------------------------------------------------------------- specification

  /** `n` may be placed next: everything known it refers to is already in `out`. */
  ghost predicate Available(g: Graph<string>, out: seq<string>, n: string) {
    n in g && n !in out && forall r :: r in g[n] && r in g ==> r in out
  }

  ghost function LeastName(s: set<string>): (m: string)
    requires s != {}
    ensures m in s && forall x :: x in s && x != m ==> Less(m, x)
  {
    var x :| x in s;
    if s == {x} then
      x
    else
      var y := LeastName(s - {x});
      LessTotal(x, y);
      assert forall z :: z in s && z != x && z != y && Less(x, y) ==> Less(x, z) by {
        forall z | z in s && z != x && z != y && Less(x, y)
          ensures Less(x, z)
        {
          LessTransitive(x, y, z);
        }
      }
      if Less(x, y) then x else y
  }

  ghost function AvailableSet(g: Graph<string>, out: seq<string>): set<string> {
    set n | n in g && Available(g, out, n)
  }

  /** Repeatedly places the least available name after `out`, until none is available. */
  ghost function Greedy(g: Graph<string>, out: seq<string>): seq<string>
    decreases |g.Keys - set n | n in out|
  {
    var available := AvailableSet(g, out);
    if available == {} then
      out
    else
      var next := LeastName(available);
      assert next in g.Keys - set n | n in out;
      assert (g.Keys - set n | n in out + [next]) == (g.Keys - set n | n in out) - {next};
      Greedy(g, out + [next])
  }

  /** What `Toposort` returns: the greedy order when it places everything. */
  ghost function TopoSpec(cs: seq<Component>): Result<seq<Component>, OrderError> {
    if !UniqueNames(cs) then
      Err(DuplicateComponent)
    else
      var order := Greedy(GraphOf(cs), []);
      if |order| != |cs| then
        Err(CycleDetected)
      else
        Ok(Pick(Index(cs), order))
  }

  // ---------------------------------------------------------------- the algorithm

  /** How many occurrences in `refs` are known and not yet in `done`. */
  ghost function Pending(g: Graph<string>, done: seq<string>, refs: seq<string>): nat {
    if refs == [] then
      0
    else
      var last := refs[|refs| - 1];
      Pending(g, done, refs[..|refs| - 1]) + if last in g && last !in done then 1 else 0
  }

  lemma PendingZero(g: Graph<string>, done: seq<string>, refs: seq<string>)
    ensures Pending(g, done, refs) == 0 <==> forall r :: r in refs && r in g ==> r in done
  {
    if refs != [] {
      var last := refs[|refs| - 1];
      assert forall r :: r in refs <==> r == last || r in refs[..|refs| - 1];
      PendingZero(g, done, refs[..|refs| - 1]);
    }
  }

  lemma PendingStep(g: Graph<string>, done: seq<string>, refs: seq<string>, x: string)
    requires x in g && x !in done
    ensures Pending(g, done, refs) == Pending(g, done + [x], refs) + multiset(refs)[x]
  {
    if refs != [] {
      PendingStep(g, done, refs[..|refs| - 1], x);
      assert refs == refs[..|refs| - 1] + [refs[|refs| - 1]];
    }
  }

  function Lookup(m: map<string, seq<string>>, k: string): seq<string> {
    if k in m then m[k] else []
  }

  /** `dependents` holds each edge into a known component as often as it is declared. */
  ghost predicate DependentsOf(g: Graph<string>, dependents: map<string, seq<string>>) {
    forall x, n :: x in g && n in g ==> Occurrences(Lookup(dependents, x), n) == Occurrences(g[n], x)
  }

  lemma IndexNext(cs: seq<Component>, i: nat)
    requires i < |cs| && UniqueNames(cs[..i])
    ensures cs[i].name in Index(cs[..i]) ==> !UniqueNames(cs)
    ensures cs[i].name !in Index(cs[..i]) ==> UniqueNames(cs[..i + 1])
    ensures Index(cs[..i + 1]) == Index(cs[..i])[cs[i].name := cs[i]]
  {
    var prefix := cs[..i + 1];
    assert prefix[..i] == cs[..i];
    assert Names(prefix) == Names(cs[..i]) + [cs[i].name];
    if cs[i].name in Index(cs[..i]) {
      var k :| 0 <= k < i && Names(cs[..i])[k] == cs[i].name;
      assert Names(cs)[k] == Names(cs)[i];
    }
  }

  method IndexByName(cs: seq<Component>) returns (r: Result<map<string, Component>, OrderError>)
    ensures r == if UniqueNames(cs) then Ok(Index(cs)) else Err(DuplicateComponent)
  {
    var byName: map<string, Component> := map[];
    for i := 0 to |cs|
      invariant byName == Index(cs[..i]) && UniqueNames(cs[..i])
    {
      IndexNext(cs, i);
      if cs[i].name in byName {
        return Err(DuplicateComponent);
      }
      byName := byName[cs[i].name := cs[i]];
    }
    assert cs[..|cs|] == cs;
    return Ok(byName);
  }

  ghost function Occurrences(s: seq<string>, x: string): nat {
    if s == [] then 0
    else Occurrences(s[..|s| - 1], x) + if s[|s| - 1] == x then 1 else 0
  }

  lemma OccurrencesAppend(s: seq<string>, y: string, x: string)
    ensures Occurrences(s + [y], x) == Occurrences(s, x) + if x == y then 1 else 0
  {
    assert (s + [y])[..|s|] == s;
  }

  lemma OccurrencesAreMultiplicity(s: seq<string>, x: string)
    ensures Occurrences(s, x) == multiset(s)[x]
  {
    if s != [] {
      OccurrencesAreMultiplicity(s[..|s| - 1], x);
      assert s == s[..|s| - 1] + [s[|s| - 1]];
    }
  }

  /** The list of dependents of `x` names `n` as often as the counted references of `n` name `x`. */
  ghost predicate Mirrored(dependents: map<string, seq<string>>, counted: map<string, seq<string>>, x: string,
                           n: string) {
    Occurrences(Lookup(dependents, x), n) == Occurrences(Lookup(counted, n), x)
  }

  /** `counted` holds the references of each component that the loops have counted so far. */
  ghost predicate CountState(g: Graph<string>, counted: map<string, seq<string>>,
                             indegree: map<string, int>, dependents: map<string, seq<string>>) {
    && DegreesCounted(g, counted, indegree)
    && (forall x, n {:trigger Mirrored(dependents, counted, x, n)} ::
          x in g && n in g ==> Mirrored(dependents, counted, x, n))
    && KnownDependents(g, dependents)
  }

  ghost predicate DegreesCounted(g: Graph<string>, counted: map<string, seq<string>>, indegree: map<string, int>) {
    && indegree.Keys == g.Keys
    && (forall n :: n in g ==> indegree[n] == Pending(g, [], Lookup(counted, n)))
  }

  lemma DegreesStep(g: Graph<string>, counted: map<string, seq<string>>, name: string, target: string,
                    indegree: map<string, int>)
    requires DegreesCounted(g, counted, indegree) && name in g
    ensures var now := counted[name := Lookup(counted, name) + [target]];
            DegreesCounted(g, now, if target in g then indegree[name := indegree[name] + 1] else indegree)
  {
    var longer := Lookup(counted, name) + [target];
    assert longer[..|longer| - 1] == Lookup(counted, name);
  }

  ghost predicate KnownDependents(g: Graph<string>, dependents: map<string, seq<string>>) {
    forall x :: x in dependents ==> forall n :: n in dependents[x] ==> n in g
  }

  lemma MirroredStep(dependents: map<string, seq<string>>, counted: map<string, seq<string>>, name: string,
                     target: string,
                     x: string, n: string)
    requires Mirrored(dependents, counted, x, n)
    ensures Mirrored(dependents[target := Lookup(dependents, target) + [name]],
                     counted[name := Lookup(counted, name) + [target]], x, n)
    ensures x != target ==> Mirrored(dependents, counted[name := Lookup(counted, name) + [target]], x, n)
  {
    OccurrencesAppend(Lookup(dependents, target), name, n);
    OccurrencesAppend(Lookup(counted, name), target, x);
  }

  lemma CountStep(g: Graph<string>, counted: map<string, seq<string>>, name: string, target: string,
                  indegree: map<string, int>, dependents: map<string, seq<string>>)
    requires CountState(g, counted, indegree, dependents) && name in g
    ensures var now := counted[name := Lookup(counted, name) + [target]];
            if target in g then
              CountState(g, now, indegree[name := indegree[name] + 1],
                         dependents[target := Lookup(dependents, target) + [name]])
            else
              CountState(g, now, indegree, dependents)
  {
    var longer := Lookup(counted, name) + [target];
    var now, more := counted[name := longer], dependents[target := Lookup(dependents, target) + [name]];
    DegreesStep(g, counted, name, target, indegree);
    if target in g {
      forall x, n | x in g && n in g
        ensures Mirrored(more, now, x, n)
      {
        assert Mirrored(dependents, counted, x, n);
        MirroredStep(dependents, counted, name, target, x, n);
      }
      assert KnownDependents(g, more);
    } else {
      forall x, n | x in g && n in g
        ensures Mirrored(dependents, now, x, n)
      {
        assert Mirrored(dependents, counted, x, n);
        MirroredStep(dependents, counted, name, target, x, n);
      }
    }
  }

  /** `CountStep` for the `j`-th reference of component `name`. */
  lemma CountNth(g: Graph<string>, counted: map<string, seq<string>>, name: string, targets: seq<string>, j: nat,
                 indegree: map<string, int>, dependents: map<string, seq<string>>)
    requires j < |targets| && name in g
    requires CountState(g, counted[name := targets[..j]], indegree, dependents)
    ensures name in indegree && (targets[j] in indegree <==> targets[j] in g)
    ensures if targets[j] in g then
              CountState(g, counted[name := targets[..j + 1]], indegree[name := indegree[name] + 1],
                         dependents[targets[j] := Lookup(dependents, targets[j]) + [name]])
            else
              CountState(g, counted[name := targets[..j + 1]], indegree, dependents)
  {
    var now := counted[name := targets[..j]];
    assert targets[..j + 1] == Lookup(now, name) + [targets[j]];
    CountStep(g, now, name, targets[j], indegree, dependents);
    assert now[name := targets[..j + 1]] == counted[name := targets[..j + 1]];
  }

  lemma CountNone(g: Graph<string>, counted: map<string, seq<string>>, name: string,
                  indegree: map<string, int>, dependents: map<string, seq<string>>)
    requires CountState(g, counted, indegree, dependents) && name !in counted
    ensures CountState(g, counted[name := []], indegree, dependents)
  {
    forall x, n | x in g && n in g
      ensures Mirrored(dependents, counted[name := []], x, n)
    {
      assert Mirrored(dependents, counted, x, n);
    }
  }

  /** The inner loop: counts the references of component `name`. */
  method CountOne(name: string, refs: seq<Ref>, indegree0: map<string, int>, dependents0: map<string, seq<string>>,
                  ghost g: Graph<string>, ghost counted: map<string, seq<string>>)
    returns (indegree: map<string, int>, dependents: map<string, seq<string>>)
    requires CountState(g, counted, indegree0, dependents0) && name in g && name !in counted
    ensures CountState(g, counted[name := RefNames(refs)], indegree, dependents)
  {
    indegree, dependents := indegree0, dependents0;
    ghost var targets := RefNames(refs);
    CountNone(g, counted, name, indegree, dependents);
    for j := 0 to |refs|
      invariant CountState(g, counted[name := targets[..j]], indegree, dependents)
    {
      var target := refs[j].component;
      CountNth(g, counted, name, targets, j, indegree, dependents);
      if target in indegree {
        indegree := indegree[name := indegree[name] + 1];
        dependents := dependents[target := Lookup(dependents, target) + [name]];
      }
    }
    assert targets[..|refs|] == targets;
  }

  lemma NothingCounted(g: Graph<string>, indegree: map<string, int>)
    requires indegree.Keys == g.Keys && forall n :: n in g ==> indegree[n] == 0
    ensures CountState(g, map[], indegree, map[])
  {
    assert forall x, n :: Mirrored(map[], map[], x, n);
  }

  lemma AllCounted(g: Graph<string>, indegree: map<string, int>, dependents: map<string, seq<string>>)
    requires CountState(g, g, indegree, dependents)
    ensures Counts(g, [], indegree, []) && DependentsOf(g, dependents) && KnownDependents(g, dependents)
  {
    forall x, n | x in g && n in g
      ensures Occurrences(Lookup(dependents, x), n) == Occurrences(g[n], x)
    {
      assert Mirrored(dependents, g, x, n);
    }
  }

  /** Exactly the first `i` components have been counted, completely. */
  ghost predicate CountedUpTo(g: Graph<string>, names: seq<string>, counted: Graph<string>, i: nat) {
    && (forall k :: 0 <= k < |names| ==> (names[k] in counted <==> k < i))
    && (forall n :: n in counted ==> n in g && counted[n] == g[n])
  }

  lemma CountedNext(g: Graph<string>, names: seq<string>, counted: Graph<string>, i: nat)
    requires CountedUpTo(g, names, counted, i) && i < |names| && Distinct(names)
    requires names[i] in g
    ensures names[i] !in counted && CountedUpTo(g, names, counted[names[i] := g[names[i]]], i + 1)
  {
  }

  lemma CountedEverything(g: Graph<string>, names: seq<string>, counted: Graph<string>)
    requires forall n :: n in names <==> n in g
    requires CountedUpTo(g, names, counted, |names|)
    ensures counted == g
  {
    assert counted.Keys == g.Keys;
  }

  method CountRefs(byName: map<string, Component>, names: seq<string>)
    returns (indegree: map<string, int>, dependents: map<string, seq<string>>)
    requires Distinct(names) && forall n :: n in names <==> n in byName
    ensures Counts(RefsByName(byName), [], indegree, [])
    ensures DependentsOf(RefsByName(byName), dependents) && KnownDependents(RefsByName(byName), dependents)
  {
    ghost var g := RefsByName(byName);
    ghost var counted: map<string, seq<string>> := map[];
    indegree := map n | n in names :: 0;
    dependents := map[];
    NothingCounted(g, indegree);
    for i := 0 to |names|
      invariant CountState(g, counted, indegree, dependents)
      invariant CountedUpTo(g, names, counted, i)
    {
      var name := names[i];
      CountedNext(g, names, counted, i);
      indegree, dependents := CountOne(name, byName[name].refs, indegree, dependents, g, counted);
      counted := counted[name := g[name]];
    }
    CountedEverything(g, names, counted);
    AllCounted(g, indegree, dependents);
  }

  ghost predicate ReadyIsZero(g: Graph<string>, out: seq<string>, ready: seq<string>, indegree: map<string, int>) {
    && indegree.Keys == g.Keys
    && Distinct(ready)
    && (forall n :: n in out ==> n in g && indegree[n] == 0)
    && (forall n :: n in ready <==> n in g && n !in out && indegree[n] == 0)
  }

  /** Each in-degree is what is still missing plus what `rest` is about to take off. */
  ghost predicate Counts(g: Graph<string>, out: seq<string>, indegree: map<string, int>, rest: seq<string>) {
    && indegree.Keys == g.Keys
    && forall n :: n in g ==> indegree[n] == Pending(g, out, g[n]) + multiset(rest)[n]
  }

  lemma CountsStep(g: Graph<string>, out: seq<string>, indegree: map<string, int>, rest: seq<string>)
    requires Counts(g, out, indegree, rest) && rest != [] && rest[0] in g
    ensures indegree[rest[0]] > 0
    ensures Counts(g, out, indegree[rest[0] := indegree[rest[0]] - 1], rest[1..])
  {
    MultisetTail(rest);
  }

  lemma ReadyStep(g: Graph<string>, out: seq<string>, ready: seq<string>, indegree: map<string, int>, d: string)
    requires ReadyIsZero(g, out, ready, indegree) && d in g && indegree[d] > 0
    ensures indegree[d] == 1 ==> ReadyIsZero(g, out, ready + [d], indegree[d := 0])
    ensures indegree[d] > 1 ==> ReadyIsZero(g, out, ready, indegree[d := indegree[d] - 1])
  {
    assert d !in ready && d !in out;
  }

  /** Taking the `j`-th reference off its dependent keeps the counts; a dependent that
      reaches zero belongs among the ready. */
  lemma ReleaseStep(g: Graph<string>, out: seq<string>, ready: seq<string>, indegree: map<string, int>,
                    deps: seq<string>, j: nat)
    requires j < |deps| && deps[j] in g
    requires ReadyIsZero(g, out, ready, indegree) && Counts(g, out, indegree, deps[j..])
    ensures deps[j] in indegree
    ensures var lower := indegree[deps[j] := indegree[deps[j]] - 1];
            && Counts(g, out, lower, deps[j + 1..])
            && (lower[deps[j]] == 0 ==> ReadyIsZero(g, out, ready + [deps[j]], lower))
            && (lower[deps[j]] != 0 ==> ReadyIsZero(g, out, ready, lower))
  {
    var d := deps[j];
    assert deps[j..][0] == d && deps[j..][1..] == deps[j + 1..];
    CountsStep(g, out, indegree, deps[j..]);
    ReadyStep(g, out, ready, indegree, d);
  }

  lemma ReadySorted(g: Graph<string>, out: seq<string>, ready: seq<string>, indegree: map<string, int>)
    requires ReadyIsZero(g, out, ready, indegree)
    ensures ReadyIsZero(g, out, SortNames(ready), indegree) && Sorted(Less, SortNames(ready))
  {
    SortNamesSorted(ready);
    SameElements(SortNames(ready), ready);
    PermutationDistinct(ready, SortNames(ready));
  }

  /** Takes one reference to the placed component off every dependent. */
  method Release(deps: seq<string>, indegree0: map<string, int>, ready0: seq<string>,
                 ghost g: Graph<string>, ghost out: seq<string>)
    returns (indegree: map<string, int>, ready: seq<string>)
    requires ReadyIsZero(g, out, ready0, indegree0) && Sorted(Less, ready0)
    requires forall d :: d in deps ==> d in g
    requires Counts(g, out, indegree0, deps)
    ensures ReadyIsZero(g, out, ready, indegree) && Sorted(Less, ready)
    ensures Counts(g, out, indegree, [])
  {
    indegree, ready := indegree0, ready0;
    for j := 0 to |deps|
      invariant ReadyIsZero(g, out, ready, indegree) && Sorted(Less, ready)
      invariant Counts(g, out, indegree, deps[j..])
    {
      var d := deps[j];
      ReleaseStep(g, out, ready, indegree, deps, j);
      indegree := indegree[d := indegree[d] - 1];
      if indegree[d] == 0 {
        ReadySorted(g, out, ready + [d], indegree);
        ready := SortNames(ready + [d]);
      }
    }
  }

  lemma ReadyIsAvailable(g: Graph<string>, out: seq<string>, ready: seq<string>, indegree: map<string, int>, n: string)
    requires ReadyIsZero(g, out, ready, indegree) && Counts(g, out, indegree, [])
    ensures n in ready <==> Available(g, out, n)
  {
    if n in g {
      PendingZero(g, out, g[n]);
    }
  }

  lemma ReadyHeadIsLeast(g: Graph<string>, out: seq<string>, ready: seq<string>, indegree: map<string, int>)
    requires ReadyIsZero(g, out, ready, indegree) && Counts(g, out, indegree, [])
    requires Sorted(Less, ready) && ready != []
    ensures AvailableSet(g, out) != {} && LeastName(AvailableSet(g, out)) == ready[0]
  {
    var available := AvailableSet(g, out);
    var head := ready[0];
    ReadyIsAvailable(g, out, ready, indegree, head);
    assert head in available;
    var least := LeastName(available);
    ReadyIsAvailable(g, out, ready, indegree, least);
    if least != head {
      SortedHead(ready, least);
    }
  }

  lemma TakeReady(g: Graph<string>, dependents: map<string, seq<string>>, out: seq<string>, ready: seq<string>,
                  indegree: map<string, int>, deps: seq<string>)
    requires ReadyIsZero(g, out, ready, indegree) && Counts(g, out, indegree, []) && ready != []
    requires DependentsOf(g, dependents) && multiset(deps) == multiset(Lookup(dependents, ready[0]))
    ensures ReadyIsZero(g, out + [ready[0]], ready[1..], indegree)
    ensures Counts(g, out + [ready[0]], indegree, deps)
  {
    var next, rest := ready[0], ready[1..];
    assert ready == [next] + rest;
    assert next in ready && next !in rest;
    forall n | n in g
      ensures indegree[n] == Pending(g, out + [next], g[n]) + multiset(deps)[n]
    {
      PendingStep(g, out, g[n], next);
      OccurrencesAreMultiplicity(g[n], next);
      OccurrencesAreMultiplicity(Lookup(dependents, next), n);
    }
  }

  method InitialReady(names: seq<string>, indegree: map<string, int>,
                      ghost g: Graph<string>) returns (ready: seq<string>)
    requires Distinct(names) && forall n :: n in names <==> n in g
    requires indegree.Keys == g.Keys
    ensures ReadyIsZero(g, [], ready, indegree) && Sorted(Less, ready)
  {
    var zero := [];
    for i := 0 to |names|
      invariant Distinct(zero)
      invariant forall n :: n in zero ==> n in g && indegree[n] == 0
      invariant forall k :: 0 <= k < |names| ==> (names[k] in zero <==> k < i && indegree[names[k]] == 0)
    {
      if indegree[names[i]] == 0 {
        zero := zero + [names[i]];
      }
    }
    ReadySorted(g, [], zero, indegree);
    ready := SortNames(zero);
  }

  ghost predicate LoopState(g: Graph<string>, out: seq<string>, ready: seq<string>, indegree: map<string, int>) {
    && ReadyIsZero(g, out, ready, indegree) && Sorted(Less, ready)
    && Counts(g, out, indegree, [])
    && Greedy(g, out) == Greedy(g, [])
  }

  ghost function Unplaced(g: Graph<string>, out: seq<string>): nat {
    |g.Keys - set n | n in out|
  }

  lemma HeadIsGreedy(g: Graph<string>, out: seq<string>, ready: seq<string>, indegree: map<string, int>)
    requires LoopState(g, out, ready, indegree) && ready != []
    ensures ready[0] in g && ready[0] !in out
    ensures Greedy(g, out + [ready[0]]) == Greedy(g, [])
    ensures Unplaced(g, out + [ready[0]]) < Unplaced(g, out)
  {
    var next := ready[0];
    assert next in ready;
    ReadyHeadIsLeast(g, out, ready, indegree);
    assert (g.Keys - set n | n in out + [next]) == (g.Keys - set n | n in out) - {next};
  }

  lemma SortedTail(s: seq<string>)
    requires Sorted(Less, s) && s != []
    ensures Sorted(Less, s[1..])
  {
  }

  /** Everything one turn of the main loop needs before it releases the dependents. */
  lemma BeginTurn(g: Graph<string>, dependents: map<string, seq<string>>, out: seq<string>, ready: seq<string>,
                  indegree: map<string, int>, deps: seq<string>)
    requires LoopState(g, out, ready, indegree) && ready != []
    requires DependentsOf(g, dependents) && KnownDependents(g, dependents)
    requires deps == SortNames(Lookup(dependents, ready[0]))
    ensures ready[0] in g && Unplaced(g, out + [ready[0]]) < Unplaced(g, out)
    ensures ReadyIsZero(g, out + [ready[0]], ready[1..], indegree) && Sorted(Less, ready[1..])
    ensures Counts(g, out + [ready[0]], indegree, deps)
    ensures Greedy(g, out + [ready[0]]) == Greedy(g, [])
    ensures forall d :: d in deps ==> d in g
  {
    HeadIsGreedy(g, out, ready, indegree);
    TakeReady(g, dependents, out, ready, indegree, deps);
    SameElements(deps, Lookup(dependents, ready[0]));
    SortedTail(ready);
  }

  lemma NoneReadyIsStuck(g: Graph<string>, out: seq<string>, indegree: map<string, int>)
    requires LoopState(g, out, [], indegree)
    ensures out == Greedy(g, [])
  {
    forall n
      ensures n !in AvailableSet(g, out)
    {
      ReadyIsAvailable(g, out, [], indegree, n);
    }
    assert AvailableSet(g, out) == {};
  }

  ghost predicate Picked(byName: map<string, Component>, order: seq<string>, out: seq<Component>) {
    |out| == |order| && forall i :: 0 <= i < |out| ==> out[i] == Get(byName, order[i])
  }

  lemma PickedNext(byName: map<string, Component>, order: seq<string>, out: seq<Component>, next: string)
    requires Picked(byName, order, out)
    ensures Picked(byName, order + [next], out + [Get(byName, next)])
  {
  }

  lemma PickedIsPick(byName: map<string, Component>, order: seq<string>, out: seq<Component>)
    requires Picked(byName, order, out)
    ensures out == Pick(byName, order)
  {
  }

  /** One turn of the main loop: places the first ready component. */
  method PlaceNext(dependents: map<string, seq<string>>, indegree0: map<string, int>, ready0: seq<string>,
                   ghost g: Graph<string>, ghost order: seq<string>)
    returns (next: string, indegree: map<string, int>, ready: seq<string>)
    requires DependentsOf(g, dependents) && KnownDependents(g, dependents)
    requires LoopState(g, order, ready0, indegree0) && ready0 != []
    ensures next in g && Unplaced(g, order + [next]) < Unplaced(g, order)
    ensures LoopState(g, order + [next], ready, indegree)
  {
    next := ready0[0];
    var deps := SortNames(Lookup(dependents, next));
    BeginTurn(g, dependents, order, ready0, indegree0, deps);
    indegree, ready := Release(deps, indegree0, ready0[1..], g, order + [next]);
  }

  /** The main loop, run until no component is ready. */
  method PlaceAll(byName: map<string, Component>, dependents: map<string, seq<string>>,
                  indegree0: map<string, int>, ready0: seq<string>, ghost g: Graph<string>)
    returns (out: seq<Component>, ghost order: seq<string>)
    requires g.Keys == byName.Keys
    requires DependentsOf(g, dependents) && KnownDependents(g, dependents)
    requires LoopState(g, [], ready0, indegree0)
    ensures order == Greedy(g, [])
    ensures out == Pick(byName, order)
  {
    var indegree, ready := indegree0, ready0;
    out, order := [], [];
    while ready != []
      invariant LoopState(g, order, ready, indegree)
      invariant Picked(byName, order, out)
      decreases Unplaced(g, order)
    {
      var next;
      next, indegree, ready := PlaceNext(dependents, indegree, ready, g, order);
      PickedNext(byName, order, out, next);
      out := out + [Get(byName, next)];
      order := order + [next];
    }
    NoneReadyIsStuck(g, order, indegree);
    PickedIsPick(byName, order, out);
  }

  method Toposort(cs: seq<Component>) returns (r: Result<seq<Component>, OrderError>)
    ensures r == TopoSpec(cs)
  {
    if |cs| == 0 {
      assert AvailableSet(GraphOf(cs), []) == {};
      return Ok([]);
    }
    var indexed := IndexByName(cs);
    if indexed.Err? {
      return Err(DuplicateComponent);
    }
    var byName := indexed.value;
    var names := SortNames(Names(cs));
    SameElements(names, Names(cs));
    PermutationDistinct(Names(cs), names);
    var indegree, dependents := CountRefs(byName, names);
    var ready := InitialReady(names, indegree, RefsByName(byName));
    var out, order := PlaceAll(byName, dependents, indegree, ready, RefsByName(byName));
    if |out| != |cs| {
      return Err(CycleDetected);
    }
    return Ok(out);
  }
}

/** `Plan`: the pre-flight pairing check, then one plan per selected target in component order. */
module Planning {
  import opened Order
  import opened RefGraph
  import opened Components
  import opened Results
  import opened Toposort
  import opened ToposortLaws
  import opened Targets
  import opened ApplyOrdered

  function Ident(c: Component, t: Target): TargetIdent {
    TargetIdent(c.name, t.cloud, t.region)
  }

  function TargetsOf(c: Component): (r: seq<TargetIdent>)
    ensures |r| == |c.targets| && forall i :: 0 <= i < |r| ==> r[i] == Ident(c, c.targets[i])
  {
    seq(|c.targets|, i requires 0 <= i < |c.targets| => Ident(c, c.targets[i]))
  }

  function AllTargets(cs: seq<Component>): seq<TargetIdent> {
    if cs == [] then [] else AllTargets(cs[..|cs| - 1]) + TargetsOf(cs[|cs| - 1])
  }

  lemma {:induction false} AllTargetsHas(cs: seq<Component>, t: TargetIdent)
    ensures t in AllTargets(cs) <==> exists c :: c in cs && t in TargetsOf(c)
  {
    if cs != [] {
      var init, last := cs[..|cs| - 1], cs[|cs| - 1];
      AllTargetsHas(init, t);
      assert forall c :: c in cs <==> c in init || c == last by {
        assert cs == init + [last];
      }
    }
  }

  lemma {:induction false} AllTargetsConcat(a: seq<Component>, b: seq<Component>)
    ensures AllTargets(a + b) == AllTargets(a) + AllTargets(b)
  {
    if b == [] {
      assert a + b == a;
    } else {
      var last := TargetsOf(b[|b| - 1]);
      AllTargetsConcat(a, b[..|b| - 1]);
      LastOfConcat(a, b);
      ConcatAssociates(AllTargets(a), AllTargets(b[..|b| - 1]), last);
    }
  }

  lemma TargetsOfOne(c: Component)
    ensures AllTargets([c]) == TargetsOf(c)
  {
    assert [c][..0] == [];
  }

  lemma AllTargetsAround(a: seq<Component>, c: Component, b: seq<Component>)
    ensures AllTargets(a + [c] + b) == AllTargets(a) + TargetsOf(c) + AllTargets(b)
    ensures AllTargets(a + b) == AllTargets(a) + AllTargets(b)
  {
    AllTargetsConcat(a + [c], b);
    AllTargetsConcat(a, [c]);
    TargetsOfOne(c);
    AllTargetsConcat(a, b);
  }

  lemma RemoveTargets(a: seq<Component>, c: Component, b: seq<Component>)
    ensures multiset(AllTargets(a + [c] + b)) == multiset(AllTargets(a + b)) + multiset(TargetsOf(c))
  {
    AllTargetsAround(a, c, b);
  }

  lemma FirstTargets(cs: seq<Component>)
    requires cs != []
    ensures multiset(AllTargets(cs)) == multiset(AllTargets(cs[1..])) + multiset(TargetsOf(cs[0]))
  {
    RemoveTargets([], cs[0], cs[1..]);
    assert cs == [] + [cs[0]] + cs[1..] && [] + cs[1..] == cs[1..];
  }

  lemma {:induction false} AllTargetsPermuted(cs: seq<Component>, ds: seq<Component>)
    requires multiset(cs) == multiset(ds)
    ensures multiset(AllTargets(cs)) == multiset(AllTargets(ds))
  {
    SameElements(cs, ds);
    if cs != [] {
      assert cs[0] in cs;
      var i :| 0 <= i < |ds| && ds[i] == cs[0];
      Removed(ds, i);
      MultisetTail(cs);
      AllTargetsPermuted(cs[1..], ds[..i] + ds[i + 1..]);
      FirstTargets(cs);
      RemoveTargets(ds[..i], cs[0], ds[i + 1..]);
    }
  }

  lemma Removed(ds: seq<Component>, i: nat)
    requires i < |ds|
    ensures ds == ds[..i] + [ds[i]] + ds[i + 1..]
    ensures multiset(ds[..i] + ds[i + 1..]) == multiset(ds) - multiset{ds[i]}
  {
    assert ds == ds[..i] + [ds[i]] + ds[i + 1..];
  }

  lemma {:induction false} TargetCopies(c: Component, targets: seq<Target>, t: TargetIdent)
    requires c.targets == targets
    ensures multiset(TargetsOf(c))[t] ==
            if t.component == c.name then multiset(targets)[Target(t.cloud, t.region)] else 0
    decreases |targets|
  {
    if targets != [] {
      var init, last := c.(targets := targets[..|targets| - 1]), targets[|targets| - 1];
      TargetCopies(init, init.targets, t);
      assert targets == init.targets + [last];
      assert TargetsOf(c) == TargetsOf(init) + [Ident(c, last)];
    }
  }

  lemma {:induction false} NoTargetsOf(cs: seq<Component>, t: TargetIdent)
    requires t.component !in Names(cs)
    ensures multiset(AllTargets(cs))[t] == 0
  {
    if cs != [] {
      var init, last := cs[..|cs| - 1], cs[|cs| - 1];
      assert Names(cs) == Names(init) + [last.name];
      NoTargetsOf(init, t);
      TargetCopies(last, last.targets, t);
    }
  }

  lemma NotNamedElsewhere(cs: seq<Component>, i: nat)
    requires UniqueNames(cs) && i < |cs|
    ensures cs[i].name !in Names(cs[..i]) && cs[i].name !in Names(cs[i + 1..])
  {
    var names := Names(cs);
    assert Names(cs[..i]) == names[..i] && Names(cs[i + 1..]) == names[i + 1..];
    assert names[i] == cs[i].name;
  }

  /** Every component declares its own targets, as often as it lists them. */
  lemma DeclaredCopies(cs: seq<Component>, c: Component, t: Target)
    requires UniqueNames(cs) && c in cs
    ensures multiset(AllTargets(cs))[TargetIdent(c.name, t.cloud, t.region)] == multiset(c.targets)[t]
  {
    var i :| 0 <= i < |cs| && cs[i] == c;
    var ident := TargetIdent(c.name, t.cloud, t.region);
    Removed(cs, i);
    AllTargetsAround(cs[..i], c, cs[i + 1..]);
    NotNamedElsewhere(cs, i);
    NoTargetsOf(cs[..i], ident);
    NoTargetsOf(cs[i + 1..], ident);
    TargetCopies(c, c.targets, ident);
    assert Target(ident.cloud, ident.region) == t;
  }

  // ---------------------------------------------------------------- pairing

  datatype PairingError = PairingError(component: string, ref: Ref, cloud: string, region: string)

  /** `Pair`: the target of `upstream` in the dependent's cloud and region, if there is one. */
  method Pair(dep: TargetIdent, upstream: string, all: seq<TargetIdent>) returns (r: Option<TargetIdent>)
    ensures r.Some? <==> dep.(component := upstream) in all
    ensures r.Some? ==> r.value == dep.(component := upstream)
  {
    for i := 0 to |all|
      invariant dep.(component := upstream) !in all[..i]
    {
      if all[i].component == upstream && all[i].cloud == dep.cloud && all[i].region == dep.region {
        return Some(all[i]);
      }
    }
    assert all[..|all|] == all;
    return None;
  }

  /** The references of one target that no upstream target answers, in order. */
  function Unpaired(dep: TargetIdent, refs: seq<Ref>, all: seq<TargetIdent>): seq<PairingError> {
    if refs == [] then []
    else
      var last := refs[|refs| - 1];
      Unpaired(dep, refs[..|refs| - 1], all) +
      if dep.(component := last.component) in all then []
      else [PairingError(dep.component, last, dep.cloud, dep.region)]
  }

  function UnpairedOf(deps: seq<TargetIdent>, refs: seq<Ref>, all: seq<TargetIdent>): seq<PairingError> {
    if deps == [] then [] else UnpairedOf(deps[..|deps| - 1], refs, all) + Unpaired(deps[|deps| - 1], refs, all)
  }

  function PairErrors(cs: seq<Component>, all: seq<TargetIdent>): seq<PairingError> {
    if cs == [] then []
    else PairErrors(cs[..|cs| - 1], all) + UnpairedOf(TargetsOf(cs[|cs| - 1]), cs[|cs| - 1].refs, all)
  }

  lemma {:induction false} UnpairedHas(dep: TargetIdent, refs: seq<Ref>, all: seq<TargetIdent>, e: PairingError)
    ensures e in Unpaired(dep, refs, all) <==>
            e.ref in refs && dep.(component := e.ref.component) !in all
                && e == PairingError(dep.component, e.ref, dep.cloud, dep.region)
  {
    if refs != [] {
      var init, last := refs[..|refs| - 1], refs[|refs| - 1];
      UnpairedHas(dep, init, all, e);
      assert e.ref in refs <==> e.ref in init || e.ref == last by {
        assert refs == init + [last];
      }
    }
  }

  lemma {:induction false} NoneUnpaired(dep: TargetIdent, refs: seq<Ref>, all: seq<TargetIdent>)
    ensures Unpaired(dep, refs, all) == [] <==> forall j :: 0 <= j < |refs| ==> Upstream(dep, refs[j]) in all
  {
    if refs != [] {
      var init, last := refs[..|refs| - 1], refs[|refs| - 1];
      NoneUnpaired(dep, init, all);
      assert forall j :: 0 <= j < |init| ==> init[j] == refs[j];
      if Upstream(dep, last) in all && Unpaired(dep, init, all) == [] {
        forall j | 0 <= j < |refs|
          ensures Upstream(dep, refs[j]) in all
        {
          assert j < |init| ==> Upstream(dep, init[j]) in all;
        }
      } else if Upstream(dep, last) in all {
        var j :| 0 <= j < |init| && Upstream(dep, init[j]) !in all;
        assert Upstream(dep, refs[j]) !in all;
      } else {
        assert Upstream(dep, refs[|refs| - 1]) !in all;
      }
    }
  }

  lemma {:induction false} NoneUnpairedOf(deps: seq<TargetIdent>, refs: seq<Ref>, all: seq<TargetIdent>)
    ensures UnpairedOf(deps, refs, all) == [] <==> forall i :: 0 <= i < |deps| ==> Unpaired(deps[i], refs, all) == []
  {
    if deps != [] {
      var init := deps[..|deps| - 1];
      NoneUnpairedOf(init, refs, all);
      assert forall i :: 0 <= i < |init| ==> init[i] == deps[i];
      if UnpairedOf(deps, refs, all) == [] {
        forall i | 0 <= i < |deps|
          ensures Unpaired(deps[i], refs, all) == []
        {
          assert i < |init| ==> Unpaired(init[i], refs, all) == [];
        }
      } else if Unpaired(deps[|deps| - 1], refs, all) == [] {
        var i :| 0 <= i < |init| && Unpaired(init[i], refs, all) != [];
        assert Unpaired(deps[i], refs, all) != [];
      }
    }
  }

  ghost predicate PairedComponent(c: Component, all: seq<TargetIdent>) {
    UnpairedOf(TargetsOf(c), c.refs, all) == []
  }

  lemma {:induction false} NoPairErrors(cs: seq<Component>, all: seq<TargetIdent>)
    ensures PairErrors(cs, all) == [] <==> forall i :: 0 <= i < |cs| ==> PairedComponent(cs[i], all)
  {
    if cs != [] {
      var init := cs[..|cs| - 1];
      NoPairErrors(init, all);
      assert forall i :: 0 <= i < |init| ==> init[i] == cs[i];
      if PairErrors(cs, all) == [] {
        forall i | 0 <= i < |cs|
          ensures PairedComponent(cs[i], all)
        {
          assert i < |init| ==> PairedComponent(init[i], all);
        }
      } else if PairedComponent(cs[|cs| - 1], all) {
        var i :| 0 <= i < |init| && !PairedComponent(init[i], all);
        assert !PairedComponent(cs[i], all);
      }
    }
  }

  // Which errors there are, how often and in which order.

  lemma {:induction false} UnpairedConcat(dep: TargetIdent, a: seq<Ref>, b: seq<Ref>, all: seq<TargetIdent>)
    ensures Unpaired(dep, a + b, all) == Unpaired(dep, a, all) + Unpaired(dep, b, all)
  {
    if b == [] {
      assert a + b == a;
    } else {
      UnpairedConcat(dep, a, b[..|b| - 1], all);
      LastOfConcat(a, b);
    }
  }

  lemma {:induction false} UnpairedOfConcat(a: seq<TargetIdent>, b: seq<TargetIdent>, refs: seq<Ref>,
                                            all: seq<TargetIdent>)
    ensures UnpairedOf(a + b, refs, all) == UnpairedOf(a, refs, all) + UnpairedOf(b, refs, all)
  {
    if b == [] {
      assert a + b == a;
    } else {
      UnpairedOfConcat(a, b[..|b| - 1], refs, all);
      LastOfConcat(a, b);
      ConcatAssociates(UnpairedOf(a, refs, all), UnpairedOf(b[..|b| - 1], refs, all), Unpaired(b[|b| - 1], refs, all));
    }
  }

  lemma {:induction false} PairErrorsConcat(a: seq<Component>, b: seq<Component>, all: seq<TargetIdent>)
    ensures PairErrors(a + b, all) == PairErrors(a, all) + PairErrors(b, all)
  {
    if b == [] {
      assert a + b == a;
    } else {
      var last := b[|b| - 1];
      PairErrorsConcat(a, b[..|b| - 1], all);
      LastOfConcat(a, b);
      ConcatAssociates(PairErrors(a, all), PairErrors(b[..|b| - 1], all), UnpairedOf(TargetsOf(last), last.refs, all));
    }
  }

  lemma PairErrorsAround(a: seq<Component>, c: Component, b: seq<Component>, all: seq<TargetIdent>)
    ensures PairErrors(a + [c] + b, all) ==
            PairErrors(a, all) + UnpairedOf(TargetsOf(c), c.refs, all) + PairErrors(b, all)
  {
    PairErrorsConcat(a + [c], b, all);
    PairErrorsConcat(a, [c], all);
    assert [c][..0] == [] && PairErrors([c][..0], all) == [];
  }

  /** Errors come component by component, and within a component target by target: those of `t`
      stand after those of the components and targets before it, and before the others. */
  lemma PairErrorsInOrder(a: seq<Component>, c: Component, b: seq<Component>, before: seq<TargetIdent>, t: TargetIdent,
                          after: seq<TargetIdent>, all: seq<TargetIdent>)
    requires TargetsOf(c) == before + [t] + after
    ensures PairErrors(a + [c] + b, all) ==
            PairErrors(a, all)
            + (UnpairedOf(before, c.refs, all) + Unpaired(t, c.refs, all) + UnpairedOf(after, c.refs, all))
            + PairErrors(b, all)
  {
    PairErrorsAround(a, c, b, all);
    UnpairedOfConcat(before + [t], after, c.refs, all);
    UnpairedOfConcat(before, [t], c.refs, all);
    assert [t][..0] == [] && UnpairedOf([t], c.refs, all) == Unpaired(t, c.refs, all);
  }

  /** The error `e` belongs to the target `t` and nothing answers its reference there. */
  ghost predicate ErrorOf(e: PairingError, t: TargetIdent, all: seq<TargetIdent>) {
    && t == TargetIdent(e.component, e.cloud, e.region)
    && TargetIdent(e.ref.component, e.cloud, e.region) !in all
  }

  lemma {:induction false} UnpairedCopies(dep: TargetIdent, refs: seq<Ref>, all: seq<TargetIdent>, e: PairingError)
    ensures multiset(Unpaired(dep, refs, all))[e] == if ErrorOf(e, dep, all) then multiset(refs)[e.ref] else 0
  {
    if refs != [] {
      var init := refs[..|refs| - 1];
      UnpairedCopies(dep, init, all, e);
      UnpairedLast(dep, refs, all, e);
      LastCopies(refs, e.ref);
    }
  }

  lemma UnpairedLast(dep: TargetIdent, refs: seq<Ref>, all: seq<TargetIdent>, e: PairingError)
    requires refs != []
    ensures multiset(Unpaired(dep, refs, all))[e] == multiset(Unpaired(dep, refs[..|refs| - 1], all))[e]
            + if ErrorOf(e, dep, all) && refs[|refs| - 1] == e.ref then 1 else 0
  {
    var last := refs[|refs| - 1];
    assert dep.(component := last.component) == TargetIdent(last.component, dep.cloud, dep.region);
  }

  lemma UnpairedOfNext(deps: seq<TargetIdent>, refs: seq<Ref>, all: seq<TargetIdent>, e: PairingError)
    requires deps != []
    ensures var t := TargetIdent(e.component, e.cloud, e.region);
            multiset(UnpairedOf(deps, refs, all))[e] ==
            multiset(UnpairedOf(deps[..|deps| - 1], refs, all))[e]
            + if ErrorOf(e, t, all) && deps[|deps| - 1] == t then multiset(refs)[e.ref] else 0
  {
    UnpairedCopies(deps[|deps| - 1], refs, all, e);
  }

  lemma CopiesNext(x: nat, before: nat, n: nat, was: nat, m: nat, wrong: bool, same: bool)
    requires before == if wrong then was * m else 0
    requires x == before + (if wrong && same then m else 0) && n == was + if same then 1 else 0
    ensures x == if wrong then n * m else 0
  {
    if same {
      assert (was + 1) * m == was * m + m;
    }
  }

  lemma LastCopies<T>(s: seq<T>, t: T)
    requires s != []
    ensures multiset(s)[t] == multiset(s[..|s| - 1])[t] + if s[|s| - 1] == t then 1 else 0
  {
    assert s == s[..|s| - 1] + [s[|s| - 1]];
  }

  lemma {:induction false} UnpairedOfCopies(deps: seq<TargetIdent>, refs: seq<Ref>, all: seq<TargetIdent>,
                                            e: PairingError, t: TargetIdent)
    requires t == TargetIdent(e.component, e.cloud, e.region)
    ensures multiset(UnpairedOf(deps, refs, all))[e] ==
            if ErrorOf(e, t, all) then multiset(deps)[t] * multiset(refs)[e.ref] else 0
  {
    if deps != [] {
      var init := deps[..|deps| - 1];
      UnpairedOfCopies(init, refs, all, e, t);
      UnpairedOfNext(deps, refs, all, e);
      LastCopies(deps, t);
      CopiesNext(multiset(UnpairedOf(deps, refs, all))[e], multiset(UnpairedOf(init, refs, all))[e],
                 multiset(deps)[t], multiset(init)[t], multiset(refs)[e.ref],
                 ErrorOf(e, t, all), deps[|deps| - 1] == t);
    }
  }

  lemma {:induction false} NoErrorsOf(cs: seq<Component>, all: seq<TargetIdent>, e: PairingError)
    requires e.component !in Names(cs)
    ensures multiset(PairErrors(cs, all))[e] == 0
  {
    if cs != [] {
      var init, last := cs[..|cs| - 1], cs[|cs| - 1];
      assert Names(cs) == Names(init) + [last.name];
      NoErrorsOf(init, all, e);
      var t := TargetIdent(e.component, e.cloud, e.region);
      UnpairedOfCopies(TargetsOf(last), last.refs, all, e, t);
      TargetCopies(last, last.targets, t);
    }
  }

  /** With unique names the check reports a reference of a component once for each of its
      targets and each time it is declared, and only where the upstream component has no target
      in that cloud and region. */
  lemma PairErrorsCount(cs: seq<Component>, c: Component, e: PairingError)
    requires UniqueNames(cs) && c in cs && e.component == c.name
    ensures multiset(PairErrors(cs, AllTargets(cs)))[e] ==
            if TargetIdent(e.ref.component, e.cloud, e.region) in AllTargets(cs) then 0
            else multiset(c.targets)[Target(e.cloud, e.region)] * multiset(c.refs)[e.ref]
  {
    var i :| 0 <= i < |cs| && cs[i] == c;
    var all := AllTargets(cs);
    Removed(cs, i);
    PairErrorsAround(cs[..i], c, cs[i + 1..], all);
    NotNamedElsewhere(cs, i);
    NoErrorsOf(cs[..i], all, e);
    NoErrorsOf(cs[i + 1..], all, e);
    var t := TargetIdent(e.component, e.cloud, e.region);
    UnpairedOfCopies(TargetsOf(c), c.refs, all, e, t);
    TargetCopies(c, c.targets, t);
  }

  method PairTarget(dep: TargetIdent, refs: seq<Ref>, all: seq<TargetIdent>,
                    errs0: seq<PairingError>) returns (errs: seq<PairingError>)
    ensures errs == errs0 + Unpaired(dep, refs, all)
  {
    errs := errs0;
    for j := 0 to |refs|
      invariant errs == errs0 + Unpaired(dep, refs[..j], all)
    {
      assert refs[..j + 1][..j] == refs[..j];
      var pair := Pair(dep, refs[j].component, all);
      if pair.None? {
        errs := errs + [PairingError(dep.component, refs[j], dep.cloud, dep.region)];
      }
    }
    assert refs[..|refs|] == refs;
  }

  method PairComponent(c: Component, all: seq<TargetIdent>, errs0: seq<PairingError>) returns (errs: seq<PairingError>)
    ensures errs == errs0 + UnpairedOf(TargetsOf(c), c.refs, all)
  {
    errs := errs0;
    var deps := TargetsOf(c);
    for i := 0 to |deps|
      invariant errs == errs0 + UnpairedOf(deps[..i], c.refs, all)
    {
      assert deps[..i + 1][..i] == deps[..i];
      errs := PairTarget(deps[i], c.refs, all, errs);
    }
    assert deps[..|deps|] == deps;
  }

  method CollectTargets(cs: seq<Component>) returns (all: seq<TargetIdent>)
    ensures all == AllTargets(cs)
  {
    all := [];
    for i := 0 to |cs|
      invariant all == AllTargets(cs[..i])
    {
      assert cs[..i + 1][..i] == cs[..i];
      all := all + TargetsOf(cs[i]);
    }
    assert cs[..|cs|] == cs;
  }

  lemma NothingToPair(deps: seq<TargetIdent>, refs: seq<Ref>, all: seq<TargetIdent>)
    requires refs == [] || deps == []
    ensures UnpairedOf(deps, refs, all) == []
  {
    NoneUnpairedOf(deps, refs, all);
  }

  lemma PairErrorsNext(cs: seq<Component>, all: seq<TargetIdent>, i: nat)
    requires i < |cs|
    ensures PairErrors(cs[..i + 1], all) == PairErrors(cs[..i], all) + UnpairedOf(TargetsOf(cs[i]), cs[i].refs, all)
  {
    assert cs[..i + 1][..i] == cs[..i];
  }

  method PreflightPairing(cs: seq<Component>) returns (errs: seq<PairingError>)
    ensures errs == PairErrors(cs, AllTargets(cs))
  {
    var all := CollectTargets(cs);
    errs := [];
    for i := 0 to |cs|
      invariant errs == PairErrors(cs[..i], all)
    {
      PairErrorsNext(cs, all, i);
      if cs[i].refs == [] || cs[i].targets == [] {
        NothingToPair(TargetsOf(cs[i]), cs[i].refs, all);
        continue;
      }
      errs := PairComponent(cs[i], all, errs);
    }
    assert cs[..|cs|] == cs;
  }

  // ---------------------------------------------------------------- the plan

  /** An empty field of a filter matches everything. */
  datatype TargetFilter = TargetFilter(component: string, cloud: string, region: string)

  predicate Selects(f: TargetFilter, t: TargetIdent) {
    && (f.component == "" || f.component == t.component)
    && (f.cloud == "" || f.cloud == t.cloud)
    && (f.region == "" || f.region == t.region)
  }

  predicate Selected(filters: seq<TargetFilter>, t: TargetIdent) {
    filters == [] || exists i :: 0 <= i < |filters| && Selects(filters[i], t)
  }

  /** A filter selects the target that it becomes when its empty fields are filled from it. */
  lemma SelectsIff(f: TargetFilter, t: TargetIdent)
    ensures Selects(f, t) <==>
            t == TargetIdent(if |f.component| > 0 then f.component else t.component,
                             if |f.cloud| > 0 then f.cloud else t.cloud,
                             if |f.region| > 0 then f.region else t.region)
  {
  }

  method MatchesFilter(filters: seq<TargetFilter>, t: TargetIdent) returns (matches: bool)
    ensures matches <==> Selected(filters, t)
  {
    if |filters| == 0 {
      return true;
    }
    for i := 0 to |filters|
      invariant forall k :: 0 <= k < i ==> !Selects(filters[k], t)
    {
      if Selects(filters[i], t) {
        return true;
      }
    }
    return false;
  }

  function Select(filters: seq<TargetFilter>, ts: seq<TargetIdent>): seq<TargetIdent> {
    if ts == [] then []
    else Select(filters, ts[..|ts| - 1]) + if Selected(filters, ts[|ts| - 1]) then [ts[|ts| - 1]] else []
  }

  /** The targets a plan covers, in the order it lists them. */
  function Planned(ordered: seq<Component>, filters: seq<TargetFilter>): seq<TargetIdent> {
    Select(filters, AllTargets(ordered))
  }

  lemma {:induction false} SelectHas(filters: seq<TargetFilter>, ts: seq<TargetIdent>, t: TargetIdent)
    ensures t in Select(filters, ts) <==> t in ts && Selected(filters, t)
  {
    if ts != [] {
      SelectHas(filters, ts[..|ts| - 1], t);
      assert ts == ts[..|ts| - 1] + [ts[|ts| - 1]];
    }
  }

  lemma {:induction false} SelectConcat(filters: seq<TargetFilter>, a: seq<TargetIdent>, b: seq<TargetIdent>)
    ensures Select(filters, a + b) == Select(filters, a) + Select(filters, b)
  {
    if b == [] {
      assert a + b == a;
    } else {
      var init := b[..|b| - 1];
      SelectConcat(filters, a, init);
      assert (a + b)[..|a + b| - 1] == a + init;
    }
  }

  lemma {:induction false} SelectKeepsOrder(g: Graph<string>, filters: seq<TargetFilter>, ts: seq<TargetIdent>)
    requires DependencyFirst(g, ts)
    ensures DependencyFirst(g, Select(filters, ts))
  {
    if ts != [] {
      var init, last := ts[..|ts| - 1], ts[|ts| - 1];
      forall i, j | 0 <= i < |init| && 0 <= j < |init| && Edge(g, init[i].component, init[j].component)
        ensures j < i
      {
        assert ts[i] == init[i] && ts[j] == init[j];
      }
      SelectKeepsOrder(g, filters, init);
      if Selected(filters, last) {
        AppendKeepsOrder(g, filters, ts);
      }
    }
  }

  lemma AppendKeepsOrder(g: Graph<string>, filters: seq<TargetFilter>, ts: seq<TargetIdent>)
    requires ts != [] && DependencyFirst(g, ts)
    requires DependencyFirst(g, Select(filters, ts[..|ts| - 1]))
    ensures DependencyFirst(g, Select(filters, ts[..|ts| - 1]) + [ts[|ts| - 1]])
  {
    var kept, last := Select(filters, ts[..|ts| - 1]), ts[|ts| - 1];
    forall t | t in kept
      ensures !Edge(g, t.component, last.component)
    {
      SelectHas(filters, ts[..|ts| - 1], t);
      NothingRefersToLast(g, ts, t);
    }
    NothingRefersToLast(g, ts, last);
    ConcatKeepsOrder(g, kept, [last], last.component);
  }

  lemma NothingRefersToLast(g: Graph<string>, ts: seq<TargetIdent>, t: TargetIdent)
    requires ts != [] && DependencyFirst(g, ts) && t in ts
    ensures !Edge(g, t.component, ts[|ts| - 1].component)
  {
    var i :| 0 <= i < |ts| && ts[i] == t;
    assert Edge(g, ts[i].component, ts[|ts| - 1].component) ==> |ts| - 1 < i;
  }

  ghost predicate UpstreamFirst(g: Graph<string>, names: seq<string>) {
    forall i, j :: 0 <= i < |names| && 0 <= j < |names| && Edge(g, names[i], names[j]) ==> j < i
  }

  lemma ConcatKeepsOrder(g: Graph<string>, a: seq<TargetIdent>, b: seq<TargetIdent>, name: string)
    requires DependencyFirst(g, a) && (forall t :: t in b ==> t.component == name) && !Edge(g, name, name)
    requires forall t :: t in a ==> !Edge(g, t.component, name)
    ensures DependencyFirst(g, a + b)
  {
    var s := a + b;
    forall i | 0 <= i < |s|
      ensures !Edge(g, s[i].component, name)
      ensures i >= |a| ==> s[i].component == name
    {
      assert if i < |a| then s[i] in a else s[i] in b;
    }
    forall i, j | 0 <= i < |s| && 0 <= j < |s| && Edge(g, s[i].component, s[j].component)
      ensures j < i
    {
      if i < |a| && j < |a| {
        assert Edge(g, a[i].component, a[j].component);
      }
    }
  }

  lemma {:induction false} AllTargetsOrder(g: Graph<string>, ordered: seq<Component>)
    requires UpstreamFirst(g, Names(ordered))
    ensures DependencyFirst(g, AllTargets(ordered))
  {
    if ordered != [] {
      var init, last, names := ordered[..|ordered| - 1], ordered[|ordered| - 1], Names(ordered);
      forall i, j | 0 <= i < |init| && 0 <= j < |init| && Edge(g, Names(init)[i], Names(init)[j])
        ensures j < i
      {
        assert Edge(g, names[i], names[j]);
      }
      AllTargetsOrder(g, init);
      forall t | t in AllTargets(init)
        ensures !Edge(g, t.component, last.name)
      {
        AllTargetsHas(init, t);
        var i :| 0 <= i < |init| && t in TargetsOf(init[i]);
        assert names[i] == t.component && names[|init|] == last.name;
      }
      assert !Edge(g, last.name, last.name) by {
        assert names[|init|] == last.name;
      }
      ConcatKeepsOrder(g, AllTargets(init), TargetsOf(last), last.name);
    }
  }

  /** A plan lists every target of an upstream component before any target of a dependent. */
  lemma PlanIsDependencyFirst(project: seq<Component>, filters: seq<TargetFilter>)
    requires TopoSpec(project).Ok?
    ensures DependencyFirst(GraphOf(project), Planned(TopoSpec(project).value, filters))
  {
    var ordered, g := TopoSpec(project).value, GraphOf(project);
    ToposortOrders(project);
    AllTargetsOrder(g, ordered);
    SelectKeepsOrder(g, filters, AllTargets(ordered));
  }

  lemma {:induction false} SelectCopies(filters: seq<TargetFilter>, ts: seq<TargetIdent>, t: TargetIdent)
    ensures multiset(Select(filters, ts))[t] == if Selected(filters, t) then multiset(ts)[t] else 0
  {
    if ts != [] {
      SelectCopies(filters, ts[..|ts| - 1], t);
      assert ts == ts[..|ts| - 1] + [ts[|ts| - 1]];
    }
  }

  /** A plan covers exactly the declared targets its filters select, each as often as it is
      declared. */
  lemma PlanCovers(project: seq<Component>, filters: seq<TargetFilter>, t: TargetIdent)
    requires TopoSpec(project).Ok?
    ensures t in Planned(TopoSpec(project).value, filters) <==> Selected(filters, t) && t in AllTargets(project)
    ensures multiset(Planned(TopoSpec(project).value, filters))[t] ==
            if Selected(filters, t) then multiset(AllTargets(project))[t] else 0
  {
    var ordered := TopoSpec(project).value;
    ToposortOrders(project);
    AllTargetsPermuted(ordered, project);
    SelectHas(filters, AllTargets(ordered), t);
    SelectCopies(filters, AllTargets(ordered), t);
    SameElements(AllTargets(ordered), AllTargets(project));
  }

  /** A component that lists no target twice has each target planned once if the filters select
      it, and a plan of such components never repeats itself. */
  lemma PlanNeverRepeats(project: seq<Component>, filters: seq<TargetFilter>)
    requires TopoSpec(project).Ok? && forall c :: c in project ==> Distinct(c.targets)
    ensures Distinct(Planned(TopoSpec(project).value, filters))
    ensures forall c, t :: c in project && t in c.targets && Selected(filters, Ident(c, t)) ==>
              multiset(Planned(TopoSpec(project).value, filters))[TargetIdent(c.name, t.cloud, t.region)] == 1
  {
    var planned := Planned(TopoSpec(project).value, filters);
    forall t
      ensures multiset(planned)[t] <= 1
    {
      PlanCovers(project, filters, t);
      DeclaredAtMostOnce(project, t);
    }
    MultisetDistinct(planned);
    forall c, t | c in project && t in c.targets && Selected(filters, Ident(c, t))
      ensures multiset(planned)[TargetIdent(c.name, t.cloud, t.region)] == 1
    {
      PlanCovers(project, filters, Ident(c, t));
      DeclaredCopies(project, c, t);
      MultisetDistinct(c.targets);
    }
  }

  lemma DeclaredAtMostOnce(project: seq<Component>, t: TargetIdent)
    requires UniqueNames(project) && forall c :: c in project ==> Distinct(c.targets)
    ensures multiset(AllTargets(project))[t] <= 1
  {
    if t.component in Names(project) {
      var i :| 0 <= i < |project| && Names(project)[i] == t.component;
      DeclaredCopies(project, project[i], Target(t.cloud, t.region));
      MultisetDistinct(project[i].targets);
    } else {
      NoTargetsOf(project, t);
    }
  }

  /** A plan lists its targets component by component, in the order of the components, and
      within a component in the order in which it declares them. */
  lemma PlannedInOrder(a: seq<Component>, c: Component, b: seq<Component>, filters: seq<TargetFilter>)
    ensures Planned(a + [c] + b, filters) ==
            Planned(a, filters) + Select(filters, TargetsOf(c)) + Planned(b, filters)
    ensures forall s, t :: Select(filters, s + t) == Select(filters, s) + Select(filters, t)
    ensures forall t :: Select(filters, [t]) == if Selected(filters, t) then [t] else []
  {
    AllTargetsAround(a, c, b);
    SelectConcat(filters, AllTargets(a) + TargetsOf(c), AllTargets(b));
    SelectConcat(filters, AllTargets(a), TargetsOf(c));
    forall s, t
      ensures Select(filters, s + t) == Select(filters, s) + Select(filters, t)
    {
      SelectConcat(filters, s, t);
    }
    forall t
      ensures Select(filters, [t]) == if Selected(filters, t) then [t] else []
    {
      assert [t][..0] == [];
    }
  }

  /** What planning one target yields, call by call: nothing when it fails. */
  datatype TargetOutcome = TargetOutcome(targetId: string, dir: string, changes: bool)
  type PlanWorld = nat -> Option<TargetOutcome>

  datatype PlanResult = PlanResult(targets: seq<TargetPlan>, hasChanges: bool)

  datatype PlanError = CrossTarget(pair: PairingError) | Unordered(error: OrderError) | TargetFailed(ident: TargetIdent)

  predicate PlannedAs(tp: TargetPlan, t: TargetIdent, outcome: TargetOutcome) {
    tp.ident == t && tp.targetId == outcome.targetId && tp.dir == outcome.dir
  }

  ghost predicate Covers(world: PlanWorld, idents: seq<TargetIdent>, res: PlanResult) {
    && PlanIdents(res.targets) == idents
    && (forall k :: 0 <= k < |idents| ==> world(k).Some? && PlannedAs(res.targets[k], idents[k], world(k).value))
    && (res.hasChanges <==> exists k :: 0 <= k < |idents| && world(k).Some? && world(k).value.changes)
  }

  /** Planning stops at the `k`-th target, the first that fails. */
  ghost predicate StopsAt(world: PlanWorld, idents: seq<TargetIdent>, t: TargetIdent, k: nat) {
    k < |idents| && idents[k] == t && world(k).None? && forall i :: 0 <= i < k ==> world(i).Some?
  }

  lemma CoversNext(world: PlanWorld, idents: seq<TargetIdent>, res: PlanResult, tp: TargetPlan, outcome: TargetOutcome)
    requires Covers(world, idents, res) && world(|idents|) == Some(outcome) && PlannedAs(tp, tp.ident, outcome)
    ensures Covers(world, idents + [tp.ident], PlanResult(res.targets + [tp], res.hasChanges || outcome.changes))
  {
    assert PlanIdents(res.targets + [tp]) == idents + [tp.ident];
  }

  /** The targets of one component. */
  method PlanComponent(world: PlanWorld, filters: seq<TargetFilter>, ts: seq<TargetIdent>, res0: PlanResult,
                       ghost before: seq<TargetIdent>)
    returns (r: Result<PlanResult, TargetIdent>)
    requires Covers(world, before, res0)
    ensures r.Ok? ==> Covers(world, before + Select(filters, ts), r.value)
    ensures r.Err? ==> exists k :: StopsAt(world, before + Select(filters, ts), r.error, k)
  {
    var res := res0;
    for i := 0 to |ts|
      invariant Covers(world, before + Select(filters, ts[..i]), res)
    {
      ghost var soFar := before + Select(filters, ts[..i]);
      assert ts[..i + 1][..i] == ts[..i];
      var matches := MatchesFilter(filters, ts[i]);
      if !matches {
        continue;
      }
      assert before + Select(filters, ts[..i + 1]) == soFar + [ts[i]];
      var planned := world(|res.targets|);
      if planned.None? {
        SelectPrefix(filters, ts, i);
        StopsNow(world, soFar, ts[i], before + Select(filters, ts));
        return Err(ts[i]);
      }
      var tp := TargetPlan(planned.value.targetId, ts[i], planned.value.dir);
      CoversNext(world, soFar, res, tp, planned.value);
      res := PlanResult(res.targets + [tp], res.hasChanges || planned.value.changes);
    }
    assert ts[..|ts|] == ts;
    return Ok(res);
  }

  lemma StopsNow(world: PlanWorld, soFar: seq<TargetIdent>, t: TargetIdent, idents: seq<TargetIdent>)
    requires world(|soFar|).None? && forall k :: 0 <= k < |soFar| ==> world(k).Some?
    requires soFar + [t] <= idents
    ensures StopsAt(world, idents, t, |soFar|)
  {
    assert (soFar + [t])[|soFar|] == t;
  }

  lemma SelectPrefix(filters: seq<TargetFilter>, ts: seq<TargetIdent>, i: nat)
    requires i < |ts| && Selected(filters, ts[i])
    ensures Select(filters, ts[..i]) + [ts[i]] <= Select(filters, ts)
  {
    assert ts == ts[..i + 1] + ts[i + 1..] && ts[..i + 1] == ts[..i] + [ts[i]];
    SelectConcat(filters, ts[..i + 1], ts[i + 1..]);
    assert ts[..i + 1][..i] == ts[..i];
  }

  lemma PlannedNext(ordered: seq<Component>, filters: seq<TargetFilter>, i: nat)
    requires i < |ordered|
    ensures Planned(ordered[..i + 1], filters)
        == Planned(ordered[..i], filters) + Select(filters, TargetsOf(ordered[i]))
  {
    assert ordered[..i + 1][..i] == ordered[..i];
    SelectConcat(filters, AllTargets(ordered[..i]), TargetsOf(ordered[i]));
  }

  lemma {:induction false} PlannedPrefix(ordered: seq<Component>, filters: seq<TargetFilter>, i: nat)
    requires i <= |ordered|
    ensures Planned(ordered[..i], filters) <= Planned(ordered, filters)
    decreases |ordered| - i
  {
    if i < |ordered| {
      PlannedNext(ordered, filters, i);
      PlannedPrefix(ordered, filters, i + 1);
    } else {
      assert ordered[..i] == ordered;
    }
  }

  method PlanTargets(world: PlanWorld, filters: seq<TargetFilter>,
                     ordered: seq<Component>) returns (r: Result<PlanResult, TargetIdent>)
    ensures r.Ok? ==> Covers(world, Planned(ordered, filters), r.value)
    ensures r.Err? ==> exists k :: StopsAt(world, Planned(ordered, filters), r.error, k)
  {
    var res := PlanResult([], false);
    for i := 0 to |ordered|
      invariant Covers(world, Planned(ordered[..i], filters), res)
    {
      PlannedNext(ordered, filters, i);
      var planned := PlanComponent(world, filters, TargetsOf(ordered[i]), res, Planned(ordered[..i], filters));
      if planned.Err? {
        PlannedPrefix(ordered, filters, i + 1);
        StopsInPrefix(world, Planned(ordered[..i + 1], filters), Planned(ordered, filters), planned.error);
        return Err(planned.error);
      }
      res := planned.value;
    }
    assert ordered[..|ordered|] == ordered;
    return Ok(res);
  }

  lemma StopsInPrefix(world: PlanWorld, some: seq<TargetIdent>, all: seq<TargetIdent>, t: TargetIdent)
    requires some <= all && exists k :: StopsAt(world, some, t, k)
    ensures exists k :: StopsAt(world, all, t, k)
  {
    var k :| StopsAt(world, some, t, k);
    assert StopsAt(world, all, t, k);
  }

  /** `Plan` on a project and stack that exist. */
  method Plan(project: seq<Component>, filters: seq<TargetFilter>,
              world: PlanWorld) returns (r: Result<PlanResult, PlanError>)
    ensures r.Ok? ==> PairErrors(project, AllTargets(project)) == [] && TopoSpec(project).Ok? &&
                      Covers(world, Planned(TopoSpec(project).value, filters), r.value)
    ensures r.Ok? ==> forall k :: 0 <= k < |r.value.targets| ==>
              world(k).Some? && r.value.targets[k].targetId == world(k).value.targetId &&
              r.value.targets[k].dir == world(k).value.dir
    ensures r.Err? && r.error.CrossTarget? <==> PairErrors(project, AllTargets(project)) != []
    ensures r.Err? && r.error.CrossTarget? ==> r.error.pair == PairErrors(project, AllTargets(project))[0]
    ensures r.Err? && r.error.Unordered? <==> PairErrors(project, AllTargets(project)) == [] && TopoSpec(project).Err?
    ensures r.Err? && r.error.TargetFailed? ==>
              && TopoSpec(project).Ok?
              && exists k :: StopsAt(world, Planned(TopoSpec(project).value, filters), r.error.ident, k)
  {
    var errs := PreflightPairing(project);
    if |errs| > 0 {
      return Err(CrossTarget(errs[0]));
    }
    var ordered := Toposort.Toposort(project);
    if ordered.Err? {
      return Err(Unordered(ordered.error));
    }
    var planned := PlanTargets(world, filters, ordered.value);
    if planned.Err? {
      return Err(TargetFailed(planned.error));
    }
    return Ok(planned.value);
  }

  // ---------------------------------------------------------------- plan and apply together

  /** When the pre-flight check is silent and no filter was given, no applied target can fail
      for want of an upstream target in its cloud and region. */
  lemma UnfilteredPlanPairs(run: Run, i: nat, j: nat, k: nat)
    requires UniqueNames(run.project) && TopoSpec(run.project).Ok?
    requires PairErrors(run.project, AllTargets(run.project)) == []
    requires PlanIdents(run.plan) == Planned(TopoSpec(run.project).value, [])
    requires i < |run.plan| && j < |RefsOf(run, run.plan[i].ident)|
    ensures FileFor(run, run.plan[i].ident, RefsOf(run, run.plan[i].ident)[j], k, j).Some?
  {
    var t := run.plan[i].ident;
    assert t == PlanIdents(run.plan)[i];
    PlanCovers(run.project, [], t);
    UpstreamDeclared(run, t, j);
    AllPlanned(run, Upstream(t, RefsOf(run, t)[j]));
  }

  lemma UpstreamDeclared(run: Run, t: TargetIdent, j: nat)
    requires UniqueNames(run.project) && PairErrors(run.project, AllTargets(run.project)) == []
    requires t in AllTargets(run.project) && j < |RefsOf(run, t)|
    ensures Upstream(t, RefsOf(run, t)[j]) in AllTargets(run.project)
  {
    AllTargetsHas(run.project, t);
    var c :| c in run.project && t in TargetsOf(c);
    FindsItself(run.project, c);
    var m :| 0 <= m < |run.project| && run.project[m] == c;
    PairedUpstream(run.project, AllTargets(run.project), m, t, j);
  }

  lemma AllPlanned(run: Run, t: TargetIdent)
    requires TopoSpec(run.project).Ok? && t in AllTargets(run.project)
    requires PlanIdents(run.plan) == Planned(TopoSpec(run.project).value, [])
    ensures InPlan(run.plan, t)
  {
    PlanCovers(run.project, [], t);
    assert t in PlanIdents(run.plan);
    var i :| 0 <= i < |run.plan| && PlanIdents(run.plan)[i] == t;
    assert run.plan[i].ident == t;
  }

  lemma PairedUpstream(cs: seq<Component>, all: seq<TargetIdent>, m: nat, t: TargetIdent, j: nat)
    requires PairErrors(cs, all) == [] && m < |cs| && t in TargetsOf(cs[m]) && j < |cs[m].refs|
    ensures Upstream(t, cs[m].refs[j]) in all
  {
    NoPairErrors(cs, all);
    assert PairedComponent(cs[m], all);
    NoneUnpairedOf(TargetsOf(cs[m]), cs[m].refs, all);
    NoneUnpaired(t, cs[m].refs, all);
  }

  lemma {:induction false} FindsItself(cs: seq<Component>, c: Component)
    requires UniqueNames(cs) && c in cs
    ensures FindComponent(cs, c.name) == c
  {
    var names := Names(cs);
    if cs[0] != c {
      var i :| 0 <= i < |cs| && cs[i] == c;
      assert names[0] != names[i];
      assert forall k :: 0 <= k < |cs[1..]| ==> Names(cs[1..])[k] == names[k + 1];
      FindsItself(cs[1..], c);
    }
  }
}

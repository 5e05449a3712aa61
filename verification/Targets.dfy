/** `upstream.ToposortTargets`: targets in the order of their components. */
module Targets {
  import opened Order
  import opened RefGraph
  import opened Components
  import opened Results
  import opened Toposort
  import opened ToposortLaws

  /** `rank[c.Name] = i` over the ordered components. */
  function RankMap(ordered: seq<Component>): (m: map<string, nat>)
    ensures forall n :: n in m <==> n in Names(ordered)
    ensures forall n :: n in m ==> m[n] < |ordered| && ordered[m[n]].name == n
  {
    if ordered == [] then
      map[]
    else
      var init := ordered[..|ordered| - 1];
      assert Names(ordered) == Names(init) + [ordered[|ordered| - 1].name];
      RankMap(init)[ordered[|ordered| - 1].name := |ordered| - 1]
  }

  /** A component the project does not have gets Go's zero rank. */
  function RankAt(rank: map<string, nat>, name: string): nat {
    if name in rank then rank[name] else 0
  }

  predicate TargetLess(rank: map<string, nat>, a: TargetIdent, b: TargetIdent) {
    if RankAt(rank, a.component) != RankAt(rank, b.component) then
      RankAt(rank, a.component) < RankAt(rank, b.component)
    else if a.cloud != b.cloud then
      Less(a.cloud, b.cloud)
    else
      Less(a.region, b.region)
  }

  function ByRank(rank: map<string, nat>): (TargetIdent, TargetIdent) -> bool {
    (a, b) => TargetLess(rank, a, b)
  }

  lemma ByRankIsStrictWeakOrder(rank: map<string, nat>)
    ensures StrictWeakOrder(ByRank(rank))
  {
    LessIsStrictWeakOrder();
    var less := ByRank(rank);
    forall a, b | less(a, b)
      ensures !less(b, a)
    {
      LessTotal(a.cloud, b.cloud);
    }
    forall a, b, c | !less(a, b) && !less(b, c)
      ensures !less(a, c)
    {
      NotLessTransitive(rank, a, b, c);
    }
  }

  lemma NotLessTransitive(rank: map<string, nat>, a: TargetIdent, b: TargetIdent, c: TargetIdent)
    requires !TargetLess(rank, a, b) && !TargetLess(rank, b, c)
    ensures !TargetLess(rank, a, c)
  {
    NotLessNames(a.cloud, b.cloud, c.cloud);
    NotLessNames(a.region, b.region, c.region);
    LessTotal(a.cloud, b.cloud);
    LessTotal(b.cloud, c.cloud);
  }

  lemma NotLessNames(a: string, b: string, c: string)
    ensures !Less(a, b) && !Less(b, c) ==> !Less(a, c)
    ensures Less(b, a) && Less(c, b) ==> Less(c, a)
    ensures Less(b, a) ==> !Less(a, b)
    ensures Less(a, b) && Less(b, c) ==> Less(a, c)
    ensures Less(c, a) ==> a != c
  {
    LessIsStrictWeakOrder();
    LessIrreflexive(a);
    if Less(b, a) && Less(c, b) {
      LessTransitive(c, b, a);
    }
    if Less(a, b) && Less(b, c) {
      LessTransitive(a, b, c);
    }
  }

  ghost function TargetSpec(targets: seq<TargetIdent>, cs: seq<Component>): Result<seq<TargetIdent>, OrderError> {
    match TopoSpec(cs)
    case Err(e) => Err(e)
    case Ok(ordered) => Ok(StableSort(ByRank(RankMap(ordered)), targets))
  }

  method ToposortTargets(targets: seq<TargetIdent>,
                         cs: seq<Component>) returns (r: Result<seq<TargetIdent>, OrderError>)
    ensures r == TargetSpec(targets, cs)
  {
    var sorted := Toposort.Toposort(cs);
    if sorted.Err? {
      return Err(sorted.error);
    }
    var rank := RankComponents(sorted.value);
    return Ok(StableSort(ByRank(rank), targets));
  }

  method RankComponents(ordered: seq<Component>) returns (rank: map<string, nat>)
    ensures rank == RankMap(ordered)
  {
    rank := map[];
    for i := 0 to |ordered|
      invariant rank == RankMap(ordered[..i])
    {
      assert ordered[..i + 1][..i] == ordered[..i];
      rank := rank[ordered[i].name := i];
    }
    assert ordered[..|ordered|] == ordered;
  }

  /** Every target of a component comes after every target of each component it refers to. */
  ghost predicate DependencyFirst(g: Graph<string>, targets: seq<TargetIdent>) {
    forall i, j :: 0 <= i < |targets| && 0 <= j < |targets| && Edge(g, targets[i].component, targets[j].component)
        ==> j < i
  }

  lemma EdgeRanks(cs: seq<Component>, ordered: seq<Component>, a: string, b: string)
    requires TopologicalOrder(GraphOf(cs), Names(ordered)) && Edge(GraphOf(cs), a, b)
    ensures RankAt(RankMap(ordered), b) < RankAt(RankMap(ordered), a)
  {
    var names, rank := Names(ordered), RankMap(ordered);
    assert a in names && b in names;
    assert names[rank[a]] == a && names[rank[b]] == b;
  }

  lemma LaterIsNotLess(rank: map<string, nat>, r: seq<TargetIdent>, i: nat, j: nat)
    requires Sorted(ByRank(rank), r) && i < |r| && j < |r| && TargetLess(rank, r[j], r[i])
    ensures j < i
  {
    ByRankIsStrictWeakOrder(rank);
    assert ByRank(rank)(r[j], r[i]) && !ByRank(rank)(r[i], r[j]);
  }

  /** Whatever the clouds and regions, `ToposortTargets` puts upstream components first, and
      it neither drops nor adds a target. */
  lemma TargetsDependencyFirst(targets: seq<TargetIdent>, cs: seq<Component>)
    requires TargetSpec(targets, cs).Ok?
    ensures multiset(TargetSpec(targets, cs).value) == multiset(targets)
    ensures DependencyFirst(GraphOf(cs), TargetSpec(targets, cs).value)
  {
    var ordered := TopoSpec(cs).value;
    var rank, g := RankMap(ordered), GraphOf(cs);
    var r := StableSort(ByRank(rank), targets);
    ToposortOrders(cs);
    ByRankIsStrictWeakOrder(rank);
    StableSortSorted(ByRank(rank), targets);
    forall i, j | 0 <= i < |r| && 0 <= j < |r| && Edge(g, r[i].component, r[j].component)
      ensures j < i
    {
      EdgeTurns(cs, ordered, r, i, j);
    }
  }

  lemma EdgeTurns(cs: seq<Component>, ordered: seq<Component>, r: seq<TargetIdent>, i: nat, j: nat)
    requires TopologicalOrder(GraphOf(cs), Names(ordered)) && Sorted(ByRank(RankMap(ordered)), r)
    requires i < |r| && j < |r| && Edge(GraphOf(cs), r[i].component, r[j].component)
    ensures j < i
  {
    EdgeRanks(cs, ordered, r[i].component, r[j].component);
    LaterIsNotLess(RankMap(ordered), r, i, j);
  }

  /** Where the components' order has the name; 0 if nowhere. */
  ghost function PlaceOf(names: seq<string>, name: string): nat {
    if name in names then Position(names, name) else 0
  }

  lemma RankIsPlace(ordered: seq<Component>, name: string)
    requires UniqueNames(ordered)
    ensures RankAt(RankMap(ordered), name) == PlaceOf(Names(ordered), name)
  {
    var names := Names(ordered);
    if name in names {
      assert names[RankMap(ordered)[name]] == name;
    }
  }

  /** `a` is in order before `b`: by the place of the component, by cloud, by region. */
  ghost predicate InTargetOrder(names: seq<string>, a: TargetIdent, b: TargetIdent) {
    || PlaceOf(names, a.component) < PlaceOf(names, b.component)
    || (PlaceOf(names, a.component) == PlaceOf(names, b.component) &&
        if a.cloud == b.cloud then a.region == b.region || ComesFirst(a.region, b.region)
        else ComesFirst(a.cloud, b.cloud))
  }

  lemma NotLessInOrder(rank: map<string, nat>, names: seq<string>, a: TargetIdent, b: TargetIdent)
    requires !TargetLess(rank, b, a)
    requires RankAt(rank, a.component) == PlaceOf(names, a.component)
    requires RankAt(rank, b.component) == PlaceOf(names, b.component)
    ensures InTargetOrder(names, a, b)
  {
    LessTotal(a.cloud, b.cloud);
    LessTotal(a.region, b.region);
    LessIsComesFirst(a.cloud, b.cloud);
    LessIsComesFirst(a.region, b.region);
  }

  /** Targets go by the place of their component in `Toposort`'s order, a component unknown to
      the project counting as the first, then by cloud, then by region. */
  lemma TargetsInOrder(targets: seq<TargetIdent>, cs: seq<Component>, i: nat, j: nat)
    requires TargetSpec(targets, cs).Ok? && i < j < |TargetSpec(targets, cs).value|
    ensures InTargetOrder(Names(TopoSpec(cs).value), TargetSpec(targets, cs).value[i], TargetSpec(targets, cs).value[j])
  {
    var ordered := TopoSpec(cs).value;
    var rank := RankMap(ordered);
    var r := StableSort(ByRank(rank), targets);
    ToposortResult(cs);
    ByRankIsStrictWeakOrder(rank);
    StableSortSorted(ByRank(rank), targets);
    RankIsPlace(ordered, r[i].component);
    RankIsPlace(ordered, r[j].component);
    assert !ByRank(rank)(r[j], r[i]);
    NotLessInOrder(rank, Names(ordered), r[i], r[j]);
  }
}

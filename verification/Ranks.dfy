/** `assignRanks`: longest-path layering by a memoised depth-first search. */
module Ranks {
  import opened Order
  import opened RefGraph
  import opened Components
  import opened Toposort

  /** The rank of `n` is one more than the greatest rank it refers to, and 0 without one. */
  ghost predicate RankedAt(g: Graph<string>, rank: map<string, int>, n: string) {
    && n in rank && rank[n] >= 0
    && (forall r :: Edge(g, n, r) ==> r in rank && rank[r] < rank[n])
    && (rank[n] > 0 ==> exists r :: Edge(g, n, r) && r in rank && rank[r] == rank[n] - 1)
  }

  ghost predicate PartialRanks(g: Graph<string>, rank: map<string, int>) {
    && (forall n :: n in rank ==> n in g && rank[n] >= 0)
    && (forall n {:trigger RankedAt(g, rank, n)} :: n in rank ==> RankedAt(g, rank, n))
  }

  ghost predicate IsRanking(g: Graph<string>, rank: map<string, int>) {
    PartialRanks(g, rank) && forall n :: n in g ==> n in rank
  }

  ghost predicate Keeps(before: map<string, int>, after: map<string, int>) {
    forall n :: n in before ==> n in after && after[n] == before[n]
  }

  /** `best` is the greatest rank among the first `j` references, -1 without a known one. */
  ghost predicate BestOf(g: Graph<string>, rank: map<string, int>, targets: seq<string>, j: nat, best: int) {
    && j <= |targets| && best >= -1
    && (forall k :: 0 <= k < j && targets[k] in g ==> targets[k] in rank && rank[targets[k]] <= best)
    && (best >= 0 ==> exists k :: 0 <= k < j && targets[k] in g && targets[k] in rank && rank[targets[k]] == best)
  }

  lemma BestKept(g: Graph<string>, before: map<string, int>, after: map<string, int>, targets: seq<string>, j: nat,
                 best: int)
    requires BestOf(g, before, targets, j, best) && Keeps(before, after)
    ensures BestOf(g, after, targets, j, best)
  {
  }

  lemma BestNext(g: Graph<string>, rank: map<string, int>, targets: seq<string>, j: nat, best: int)
    requires BestOf(g, rank, targets, j, best) && j < |targets|
    requires targets[j] in g ==> targets[j] in rank && rank[targets[j]] >= 0
    ensures BestOf(g, rank, targets, j + 1,
                   if targets[j] in g && rank[targets[j]] > best then rank[targets[j]] else best)
  {
  }

  lemma RankNext(g: Graph<string>, rank: map<string, int>, n: string, best: int)
    requires PartialRanks(g, rank) && n in g && n !in rank
    requires BestOf(g, rank, g[n], |g[n]|, best)
    ensures PartialRanks(g, rank[n := best + 1]) && Keeps(rank, rank[n := best + 1])
  {
    var more := rank[n := best + 1];
    forall m | m in more
      ensures m in g && RankedAt(g, more, m)
    {
      if m != n {
        RankedKept(g, rank, more, m);
      } else if best >= 0 {
        var k :| 0 <= k < |g[n]| && g[n][k] in g && g[n][k] in rank && rank[g[n][k]] == best;
        assert Edge(g, n, g[n][k]) && g[n][k] != n;
      }
    }
  }

  lemma RankedKept(g: Graph<string>, before: map<string, int>, after: map<string, int>, m: string)
    requires RankedAt(g, before, m) && Keeps(before, after)
    ensures RankedAt(g, after, m)
  {
    if before[m] > 0 {
      var r :| Edge(g, m, r) && r in before && before[r] == before[m] - 1;
      assert r in after && after[r] == before[r];
    }
  }

  /** The names being visited are those on the path, and none of them is ranked yet. */
  ghost predicate Visiting(visiting: map<string, bool>, rank: map<string, int>, path: seq<string>) {
    && (forall n :: n in path <==> n in visiting && visiting[n])
    && (forall n :: n in path ==> n !in rank)
  }

  lemma VisitingMark(visiting: map<string, bool>, rank: map<string, int>, path: seq<string>, name: string)
    requires Visiting(visiting, rank, path) && name !in rank
    ensures Visiting(visiting[name := true], rank, path + [name])
  {
  }

  lemma VisitingUnmark(visiting: map<string, bool>, rank: map<string, int>, path: seq<string>, name: string, k: int)
    requires Visiting(visiting, rank, path + [name]) && name !in path
    ensures name !in rank && Visiting(visiting[name := false], rank[name := k], path)
  {
    assert name in path + [name];
    assert forall n :: n in path + [name] <==> n in path || n == name;
  }

  /** The variables `visit` closes over. */
  class Ranker {
    const byName: map<string, Component>
    var rank: map<string, int>
    var visiting: map<string, bool>

    constructor (byName: map<string, Component>)
      ensures this.byName == byName && rank == map[] && Visiting(visiting, rank, [])
    {
      this.byName := byName;
      rank, visiting := map[], map[];
    }

    ghost function Graph(): Graph<string> {
      RefsByName(byName)
    }

    ghost predicate Valid(path: seq<string>)
      reads this
    {
      PartialRanks(Graph(), rank) && Visiting(visiting, rank, path)
    }

    method Visit(name: string, path: seq<string>) returns (ok: bool)
      requires Valid(path) && Walk(Graph(), path + [name])
      modifies this
      ensures PartialRanks(Graph(), rank) && Keeps(old(rank), rank)
      ensures ok ==> Valid(path) && name in rank
      ensures !ok ==> Cyclic(Graph())
      decreases Unplaced(Graph(), path), 1
    {
      if name in rank {
        return true;
      }
      WalkEnd(Graph(), path, name);
      if name in visiting && visiting[name] {
        BackOnPath(Graph(), path, name);
        return false;
      }
      assert name !in path;
      VisitingMark(visiting, rank, path, name);
      visiting := visiting[name := true];
      var best;
      LongerPath(Graph(), path, name);
      best, ok := VisitRefs(name, path);
      if !ok {
        return false;
      }
      VisitingUnmark(visiting, rank, path, name, best + 1);
      visiting := visiting[name := false];
      RankNext(Graph(), rank, name, best);
      rank := rank[name := best + 1];
      return true;
    }

    /** The loop over the references of `name`: visits each known one and keeps the greatest rank. */
    method VisitRefs(name: string, path: seq<string>) returns (best: int, ok: bool)
      requires Valid(path + [name]) && Walk(Graph(), path + [name]) && name in Graph()
      modifies this
      ensures PartialRanks(Graph(), rank) && Keeps(old(rank), rank)
      ensures ok ==> Valid(path + [name]) && BestOf(Graph(), rank, Graph()[name], |Graph()[name]|, best)
      ensures !ok ==> Cyclic(Graph())
      decreases Unplaced(Graph(), path + [name]), 2
    {
      ghost var g := Graph();
      var refs := byName[name].refs;
      best := -1;
      for j := 0 to |refs|
        invariant Valid(path + [name]) && Keeps(old(rank), rank)
        invariant BestOf(g, rank, g[name], j, best)
      {
        var target := refs[j].component;
        assert g[name][j] == target;
        if target in byName {
          ghost var before := rank;
          StepDown(g, path, name, target);
          ok := Visit(target, path + [name]);
          if !ok {
            return best, false;
          }
          BestKept(g, before, rank, g[name], j, best);
        }
        BestNext(g, rank, g[name], j, best);
        if target in byName && rank[target] > best {
          best := rank[target];
        }
      }
      ok := true;
    }
  }

  lemma WalkEnd(g: Graph<string>, path: seq<string>, name: string)
    requires Walk(g, path + [name])
    ensures name in g
  {
    assert (path + [name])[|path|] == name;
  }

  lemma LongerPath(g: Graph<string>, path: seq<string>, name: string)
    requires name in g && name !in path
    ensures Unplaced(g, path + [name]) < Unplaced(g, path)
  {
    assert (g.Keys - set n | n in path + [name]) == (g.Keys - set n | n in path) - {name};
  }

  lemma BackOnPath(g: Graph<string>, path: seq<string>, name: string)
    requires Walk(g, path + [name]) && name in path
    ensures Cyclic(g)
  {
    var p := path + [name];
    assert forall i :: 0 <= i < |path| ==> p[i] == path[i];
    forall i | 0 <= i < |path| - 1
      ensures Edge(g, path[i], path[i + 1])
    {
      assert Edge(g, p[i], p[i + 1]);
    }
    assert Edge(g, p[|path| - 1], p[|path|]);
    WalkBackIsCyclic(g, path, name);
  }

  lemma StepDown(g: Graph<string>, path: seq<string>, name: string, target: string)
    requires Walk(g, path + [name]) && Edge(g, name, target)
    ensures Walk(g, path + [name] + [target])
  {
    var p := path + [name];
    assert p[|p| - 1] == name;
  }

  ghost predicate RankedUpTo(names: seq<string>, rank: map<string, int>, i: nat) {
    i <= |names| && forall k :: 0 <= k < i ==> names[k] in rank
  }

  lemma RankedNext(names: seq<string>, before: map<string, int>, after: map<string, int>, i: nat)
    requires RankedUpTo(names, before, i) && Keeps(before, after) && i < |names| && names[i] in after
    ensures RankedUpTo(names, after, i + 1)
  {
  }

  lemma AllRanked(cs: seq<Component>, names: seq<string>, rank: map<string, int>)
    requires multiset(names) == multiset(Names(cs)) && RankedUpTo(names, rank, |names|)
    requires PartialRanks(GraphOf(cs), rank)
    ensures IsRanking(GraphOf(cs), rank) && !Cyclic(GraphOf(cs))
  {
    SameElements(names, Names(cs));
    forall n | n in GraphOf(cs)
      ensures n in rank
    {
      assert n in names;
    }
    RankingIsAcyclic(GraphOf(cs), rank);
  }

  lemma StartWalk(cs: seq<Component>, names: seq<string>, i: nat)
    requires multiset(names) == multiset(Names(cs)) && i < |names|
    ensures Walk(GraphOf(cs), [] + [names[i]])
  {
    SameElements(names, Names(cs));
    assert names[i] in names;
  }

  method AssignRanks(cs: seq<Component>) returns (r: Result<map<string, int>, OrderError>)
    ensures r.Ok? <==> UniqueNames(cs) && !Cyclic(GraphOf(cs))
    ensures r.Ok? ==> IsRanking(GraphOf(cs), r.value)
    ensures r.Err? ==> r.error == if UniqueNames(cs) then CycleDetected else DuplicateComponent
  {
    var indexed := IndexByName(cs);
    if indexed.Err? {
      return Err(DuplicateComponent);
    }
    var names := SortNames(Names(cs));
    var ranker := new Ranker(indexed.value);
    for i := 0 to |names|
      invariant ranker.byName == Index(cs) && ranker.Valid([])
      invariant RankedUpTo(names, ranker.rank, i)
    {
      StartWalk(cs, names, i);
      ghost var before := ranker.rank;
      var ok := ranker.Visit(names[i], []);
      if !ok {
        return Err(CycleDetected);
      }
      RankedNext(names, before, ranker.rank, i);
    }
    AllRanked(cs, names, ranker.rank);
    return Ok(ranker.rank);
  }

  // ---------------------------------------------------------------- laws

  lemma RankingIsAcyclic(g: Graph<string>, rank: map<string, int>)
    requires IsRanking(g, rank)
    ensures !Cyclic(g)
  {
    forall a, b | Edge(g, a, b)
      ensures rank[b] < rank[a]
    {
      assert RankedAt(g, rank, a);
    }
    DecreasingIsAcyclic(g, rank);
  }

  /** A chain of `k` references that starts at `n`. */
  ghost predicate Chain(g: Graph<string>, n: string, k: int, p: seq<string>) {
    Walk(g, p) && p[0] == n && |p| == k + 1
  }

  lemma {:induction false} ChainExists(g: Graph<string>, rank: map<string, int>, n: string) returns (p: seq<string>)
    requires IsRanking(g, rank) && n in g
    ensures Chain(g, n, rank[n], p)
    ensures forall i :: 0 <= i < |p| ==> p[i] in rank && rank[p[i]] == rank[n] - i
    decreases rank[n]
  {
    assert RankedAt(g, rank, n);
    if rank[n] == 0 {
      p := [n];
    } else {
      var r :| Edge(g, n, r) && r in rank && rank[r] == rank[n] - 1;
      var q := ChainExists(g, rank, r);
      WalkCons(g, n, q);
      p := [n] + q;
    }
  }

  lemma {:induction false} ChainBounded(g: Graph<string>, rank: map<string, int>, n: string, k: int, p: seq<string>)
    requires IsRanking(g, rank) && Chain(g, n, k, p)
    ensures k <= rank[n]
    decreases |p|
  {
    assert RankedAt(g, rank, n);
    if k > 0 {
      WalkTail(g, p);
      ChainBounded(g, rank, p[1], k - 1, p[1..]);
    }
  }

  /** The rank of a component is the length of the longest chain of known references below it. */
  lemma RankIsLongestChain(g: Graph<string>, rank: map<string, int>, n: string)
    requires IsRanking(g, rank) && n in g
    ensures exists p :: Chain(g, n, rank[n], p)
    ensures forall k, p :: Chain(g, n, k, p) ==> k <= rank[n]
  {
    var p := ChainExists(g, rank, n);
    forall k, q | Chain(g, n, k, q)
      ensures k <= rank[n]
    {
      ChainBounded(g, rank, n, k, q);
    }
  }

  /** There is only one ranking: declaration order and search order leave no trace. */
  lemma RankingUnique(g: Graph<string>, a: map<string, int>, b: map<string, int>)
    requires IsRanking(g, a) && IsRanking(g, b)
    ensures a == b
  {
    assert a.Keys == g.Keys && b.Keys == g.Keys;
    forall n | n in g
      ensures a[n] == b[n]
    {
      RankAtMost(g, a, b, n);
      RankAtMost(g, b, a, n);
    }
  }

  lemma RankAtMost(g: Graph<string>, a: map<string, int>, b: map<string, int>, n: string)
    requires IsRanking(g, a) && IsRanking(g, b) && n in g
    ensures a[n] <= b[n]
  {
    var p := ChainExists(g, a, n);
    ChainBounded(g, b, n, a[n], p);
  }

  /** Every rank up to the greatest is occupied, and all are below the number of components. */
  lemma RanksAreContiguous(g: Graph<string>, rank: map<string, int>, n: string, k: int)
    requires IsRanking(g, rank) && n in g && 0 <= k <= rank[n]
    ensures exists m :: m in g && rank[m] == k
    ensures rank[n] < |g|
  {
    var p := ChainExists(g, rank, n);
    assert p[rank[n] - k] in g;
    assert forall i, j :: 0 <= i < j < |p| ==> rank[p[i]] != rank[p[j]];
    DistinctWithin(p, g.Keys);
    assert |g.Keys| == |g|;
  }
}

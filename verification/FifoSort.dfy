/** `provisioner.topoSort`: Kahn's algorithm with a first-in first-out queue. It rejects
    references to unknown components, which `upstream.Toposort` skips. */
module FifoSort {
  import opened Order
  import opened RefGraph
  import opened Components
  import opened Toposort
  import opened ToposortLaws

  // ---------------------------------------------------------------- specification

  ghost function SortedSeq(s: set<string>): (r: seq<string>)
    ensures forall x :: x in r <==> x in s
    ensures Distinct(r)
  {
    if s == {} then [] else [LeastName(s)] + SortedSeq(s - {LeastName(s)})
  }

  /** What becomes available by placing `head` after `out`. */
  ghost function NewlyReady(g: Graph<string>, out: seq<string>, head: string): set<string> {
    AvailableSet(g, out + [head]) - AvailableSet(g, out)
  }

  /** The queue holds exactly the available components, once each. */
  ghost predicate QueueState(g: Graph<string>, out: seq<string>, queue: seq<string>) {
    Distinct(queue) && forall n :: n in queue <==> n in AvailableSet(g, out)
  }

  /** Serves the queue in order; what one component releases joins the end, sorted by name. */
  ghost function Fifo(g: Graph<string>, out: seq<string>, queue: seq<string>): seq<string>
    requires QueueState(g, out, queue)
    decreases Unplaced(g, out)
  {
    if queue == [] then
      out
    else
      FifoStep(g, out, queue);
      Fifo(g, out + [queue[0]], queue[1..] + SortedSeq(NewlyReady(g, out, queue[0])))
  }

  lemma FifoStep(g: Graph<string>, out: seq<string>, queue: seq<string>)
    requires queue != [] && QueueState(g, out, queue)
    ensures QueueState(g, out + [queue[0]], queue[1..] + SortedSeq(NewlyReady(g, out, queue[0])))
    ensures Unplaced(g, out + [queue[0]]) < Unplaced(g, out)
    ensures Available(g, out, queue[0])
  {
    var head := queue[0];
    assert head in queue;
    var waiting, released := queue[1..], SortedSeq(NewlyReady(g, out, head));
    assert queue == [head] + waiting;
    assert (g.Keys - set n | n in out + [head]) == (g.Keys - set n | n in out) - {head};
    forall n
      ensures n in waiting + released <==> n in AvailableSet(g, out + [head])
    {
      assert n in waiting <==> n in queue && n != head;
      assert n in released <==> n in NewlyReady(g, out, head);
      assert n in AvailableSet(g, out) && n != head ==> n in AvailableSet(g, out + [head]);
    }
    assert forall n :: n in waiting ==> n in queue;
    DistinctConcat(waiting, released);
  }

  ghost function FifoSpec(cs: seq<Component>): Result<seq<Component>, OrderError> {
    if !UniqueNames(cs) then
      Err(DuplicateComponent)
    else if !AllRefsKnown(cs) then
      Err(UnknownRef)
    else
      var order := FifoOrder(GraphOf(cs));
      if |order| != |cs| then Err(CycleDetected) else Ok(Pick(Index(cs), order))
  }

  ghost function FifoOrder(g: Graph<string>): seq<string> {
    Fifo(g, [], SortedSeq(AvailableSet(g, [])))
  }

  ghost predicate AllRefsKnown(cs: seq<Component>) {
    forall c :: c in cs ==> KnownRefs(Names(cs), c.refs)
  }

  ghost predicate KnownRefs(names: seq<string>, refs: seq<Ref>) {
    forall r :: r in refs ==> r.component in names
  }

  // ---------------------------------------------------------------- laws

  lemma {:induction false} FifoSound(g: Graph<string>, out: seq<string>, queue: seq<string>)
    requires QueueState(g, out, queue) && Placed(g, out)
    ensures Placed(g, Fifo(g, out, queue)) && AvailableSet(g, Fifo(g, out, queue)) == {}
    decreases Unplaced(g, out)
  {
    if queue == [] {
      assert AvailableSet(g, out) == {} by {
        forall n
          ensures n !in AvailableSet(g, out)
        {
          assert n !in queue;
        }
      }
    } else {
      FifoStep(g, out, queue);
      PlacedNext(g, out, queue[0]);
      FifoSound(g, out + [queue[0]], queue[1..] + SortedSeq(NewlyReady(g, out, queue[0])));
    }
  }

  lemma FifoComplete(g: Graph<string>)
    ensures |FifoOrder(g)| == |g| <==> !Cyclic(g)
    ensures |FifoOrder(g)| == |g| ==> TopologicalOrder(g, FifoOrder(g))
  {
    FifoSound(g, [], SortedSeq(AvailableSet(g, [])));
    var r := FifoOrder(g);
    assert |g.Keys| == |g|;
    DistinctWithin(r, g.Keys);
    if |r| == |g| {
      PlacedAllIsTopological(g, r);
      OrderedIsAcyclic(g, r);
    } else {
      StuckIsCyclic(g, r);
    }
  }

  /** On known references `topoSort` fails on the inputs `upstream.Toposort` fails on; an
      unknown reference it rejects before looking for a cycle. */
  lemma FifoSucceedsIffAcyclic(cs: seq<Component>)
    ensures FifoSpec(cs).Ok? <==> UniqueNames(cs) && AllRefsKnown(cs) && !Cyclic(GraphOf(cs))
    ensures FifoSpec(cs) == Err(CycleDetected) <==> UniqueNames(cs) && AllRefsKnown(cs) && Cyclic(GraphOf(cs))
    ensures FifoSpec(cs) == Err(UnknownRef) <==> UniqueNames(cs) && !AllRefsKnown(cs)
    ensures AllRefsKnown(cs) ==> (FifoSpec(cs).Ok? <==> TopoSpec(cs).Ok?)
  {
    ToposortSucceedsIffAcyclic(cs);
    if UniqueNames(cs) {
      GraphSize(cs);
      FifoComplete(GraphOf(cs));
    }
  }

  lemma FifoOrders(cs: seq<Component>)
    requires FifoSpec(cs).Ok?
    ensures multiset(FifoSpec(cs).value) == multiset(cs)
    ensures TopologicalOrder(GraphOf(cs), Names(FifoSpec(cs).value))
  {
    var order := FifoOrder(GraphOf(cs));
    GraphSize(cs);
    FifoComplete(GraphOf(cs));
    PickNames(Index(cs), order);
    PickIsPermutation(cs, order);
  }

  // ---------------------------------------------------------------- the algorithm

  /** What `topoSort` has pushed after the references in `deps` before `j`: sorted, and none
      of it after the next dependent. */
  ghost predicate PushedSorted(deps: seq<string>, j: nat, pushed: seq<string>) {
    && Sorted(Less, pushed)
    && forall x, k :: x in pushed && j <= k < |deps| ==> !Less(deps[k], x)
  }

  lemma PushSorted(deps: seq<string>, j: nat, pushed: seq<string>)
    requires Sorted(Less, deps) && j < |deps| && PushedSorted(deps, j, pushed)
    ensures PushedSorted(deps, j + 1, pushed) && PushedSorted(deps, j + 1, pushed + [deps[j]])
  {
    LessIrreflexive(deps[j]);
    var longer := pushed + [deps[j]];
    forall a, b | 0 <= a < b < |longer|
      ensures !Less(longer[b], longer[a])
    {
      if b == |pushed| {
        assert longer[a] in pushed;
      }
    }
    forall x, k | x in longer && j + 1 <= k < |deps|
      ensures !Less(deps[k], x)
    {
      assert x in pushed || x == deps[j];
    }
  }

  /** The references in `deps` before `j` are taken off and `pushed` has joined the queue. */
  ghost predicate Releasing(g: Graph<string>, out: seq<string>, deps: seq<string>, j: nat, queue0: seq<string>,
                            indegree: map<string, int>, queue: seq<string>, pushed: seq<string>) {
    && j <= |deps| && ReadyIsZero(g, out, queue, indegree)
    && Counts(g, out, indegree, deps[j..])
    && queue == queue0 + pushed && PushedSorted(deps, j, pushed)
  }

  lemma ReleasingNext(g: Graph<string>, out: seq<string>, deps: seq<string>, j: nat, queue0: seq<string>,
                      indegree: map<string, int>, queue: seq<string>, pushed: seq<string>)
    requires j < |deps| && deps[j] in g && Sorted(Less, deps)
    requires Releasing(g, out, deps, j, queue0, indegree, queue, pushed)
    ensures deps[j] in indegree
    ensures var lower := indegree[deps[j] := indegree[deps[j]] - 1];
            if lower[deps[j]] == 0
            then Releasing(g, out, deps, j + 1, queue0, lower, queue + [deps[j]], pushed + [deps[j]])
            else Releasing(g, out, deps, j + 1, queue0, lower, queue, pushed)
  {
    ReleaseStep(g, out, queue, indegree, deps, j);
    PushSorted(deps, j, pushed);
    assert queue + [deps[j]] == queue0 + (pushed + [deps[j]]);
  }

  lemma ReleasingStart(g: Graph<string>, out: seq<string>, deps: seq<string>, indegree: map<string, int>,
                       queue: seq<string>)
    requires ReadyIsZero(g, out, queue, indegree) && Counts(g, out, indegree, deps)
    ensures Releasing(g, out, deps, 0, queue, indegree, queue, [])
  {
    assert deps[0..] == deps;
  }

  lemma ReleasingEnd(g: Graph<string>, out: seq<string>, deps: seq<string>, queue0: seq<string>,
                     indegree: map<string, int>, queue: seq<string>, pushed: seq<string>)
    requires Releasing(g, out, deps, |deps|, queue0, indegree, queue, pushed)
    ensures ReadyIsZero(g, out, queue, indegree) && Counts(g, out, indegree, [])
    ensures queue == queue0 + pushed && Sorted(Less, pushed)
  {
    assert deps[|deps|..] == [];
  }

  /** Takes one reference off the `j`-th dependent. */
  method ReleaseOne(deps: seq<string>, j: nat, indegree0: map<string, int>, queue1: seq<string>,
                    ghost g: Graph<string>, ghost out: seq<string>, ghost queue0: seq<string>,
                    ghost pushed0: seq<string>)
    returns (indegree: map<string, int>, queue: seq<string>, ghost pushed: seq<string>)
    requires j < |deps| && deps[j] in g && Sorted(Less, deps)
    requires Releasing(g, out, deps, j, queue0, indegree0, queue1, pushed0)
    ensures Releasing(g, out, deps, j + 1, queue0, indegree, queue, pushed)
  {
    var d := deps[j];
    ReleasingNext(g, out, deps, j, queue0, indegree0, queue1, pushed0);
    indegree := indegree0[d := indegree0[d] - 1];
    if indegree[d] == 0 {
      return indegree, queue1 + [d], pushed0 + [d];
    }
    return indegree, queue1, pushed0;
  }

  /** Takes one reference to the placed component off every dependent; those with none left
      join the end of the queue. */
  method ReleaseToQueue(deps: seq<string>, indegree0: map<string, int>, queue0: seq<string>,
                        ghost g: Graph<string>, ghost out: seq<string>)
    returns (indegree: map<string, int>, queue: seq<string>, ghost pushed: seq<string>)
    requires ReadyIsZero(g, out, queue0, indegree0) && Sorted(Less, deps)
    requires forall d :: d in deps ==> d in g
    requires Counts(g, out, indegree0, deps)
    ensures ReadyIsZero(g, out, queue, indegree)
    ensures Counts(g, out, indegree, [])
    ensures queue == queue0 + pushed && Sorted(Less, pushed)
  {
    indegree, queue, pushed := indegree0, queue0, [];
    ReleasingStart(g, out, deps, indegree, queue);
    for j := 0 to |deps|
      invariant Releasing(g, out, deps, j, queue0, indegree, queue, pushed)
    {
      assert deps[j] in deps;
      indegree, queue, pushed := ReleaseOne(deps, j, indegree, queue, g, out, queue0, pushed);
    }
    ReleasingEnd(g, out, deps, queue0, indegree, queue, pushed);
  }

  lemma ReadyIsQueue(g: Graph<string>, out: seq<string>, queue: seq<string>, indegree: map<string, int>)
    requires ReadyIsZero(g, out, queue, indegree) && Counts(g, out, indegree, [])
    ensures QueueState(g, out, queue)
  {
    forall n
      ensures n in queue <==> n in AvailableSet(g, out)
    {
      ReadyIsAvailable(g, out, queue, indegree, n);
    }
  }

  lemma SortedSeqSorted(s: set<string>)
    ensures Sorted(Less, SortedSeq(s))
  {
    if s != {} {
      var m := LeastName(s);
      var rest := SortedSeq(s - {m});
      SortedSeqSorted(s - {m});
      forall x | x in rest
        ensures !Less(x, m)
      {
        LessAsymmetric(m, x);
      }
    }
  }

  lemma SortedSeqUnique(s: set<string>, p: seq<string>)
    requires Sorted(Less, p) && Distinct(p) && forall x :: x in p <==> x in s
    ensures p == SortedSeq(s)
  {
    SortedSeqSorted(s);
    MultisetDistinct(p);
    MultisetDistinct(SortedSeq(s));
    forall x
      ensures multiset(p)[x] == multiset(SortedSeq(s))[x]
    {
      assert x in p <==> x in multiset(p);
      assert x in SortedSeq(s) <==> x in multiset(SortedSeq(s));
    }
    SortedUnique(p, SortedSeq(s));
  }

  /** What the loop pushed is what the specification says becomes available. */
  lemma PushedIsReleased(g: Graph<string>, out: seq<string>, queue: seq<string>, pushed: seq<string>)
    requires QueueState(g, out, queue) && queue != []
    requires QueueState(g, out + [queue[0]], queue[1..] + pushed) && Sorted(Less, pushed)
    ensures pushed == SortedSeq(NewlyReady(g, out, queue[0]))
  {
    var head, rest := queue[0], queue[1..];
    var all := rest + pushed;
    assert queue == [head] + rest;
    DistinctParts(rest, pushed);
    forall x
      ensures x in pushed <==> x in NewlyReady(g, out, head)
    {
      assert x in all <==> x in AvailableSet(g, out + [head]);
      assert x in queue <==> x in AvailableSet(g, out);
      assert x in pushed ==> x != head;
    }
    SortedSeqUnique(NewlyReady(g, out, head), pushed);
  }

  ghost predicate QueueLoop(g: Graph<string>, out: seq<string>, queue: seq<string>, indegree: map<string, int>) {
    && ReadyIsZero(g, out, queue, indegree) && Counts(g, out, indegree, [])
    && QueueState(g, out, queue) && Fifo(g, out, queue) == FifoOrder(g)
  }

  /** One turn of the main loop: places the head of the queue. */
  method ServeHead(children: map<string, seq<string>>, indegree0: map<string, int>, queue0: seq<string>,
                   ghost g: Graph<string>, ghost order: seq<string>)
    returns (head: string, indegree: map<string, int>, queue: seq<string>)
    requires DependentsOf(g, children) && KnownDependents(g, children)
    requires QueueLoop(g, order, queue0, indegree0) && queue0 != []
    ensures Unplaced(g, order + [head]) < Unplaced(g, order)
    ensures QueueLoop(g, order + [head], queue, indegree)
  {
    head := queue0[0];
    var kids := SortNames(Lookup(children, head));
    SortNamesSorted(Lookup(children, head));
    SameElements(kids, Lookup(children, head));
    TakeReady(g, children, order, queue0, indegree0, kids);
    FifoStep(g, order, queue0);
    ghost var pushed;
    indegree, queue, pushed := ReleaseToQueue(kids, indegree0, queue0[1..], g, order + [head]);
    ReadyIsQueue(g, order + [head], queue, indegree);
    PushedIsReleased(g, order, queue0, pushed);
  }

  method CheckRefs(cs: seq<Component>, byName: map<string, Component>) returns (ok: bool)
    requires byName == Index(cs)
    ensures ok <==> AllRefsKnown(cs)
  {
    for i := 0 to |cs|
      invariant forall k :: 0 <= k < i ==> KnownRefs(Names(cs), cs[k].refs)
    {
      ok := CheckComponentRefs(byName, cs[i].refs, Names(cs));
      if !ok {
        assert cs[i] in cs;
        return false;
      }
    }
    return true;
  }

  method CheckComponentRefs(byName: map<string, Component>, refs: seq<Ref>, ghost names: seq<string>) returns (ok: bool)
    requires forall n :: n in byName <==> n in names
    ensures ok <==> KnownRefs(names, refs)
  {
    for j := 0 to |refs|
      invariant forall k :: 0 <= k < j ==> refs[k].component in names
    {
      if refs[j].component !in byName {
        assert refs[j] in refs;
        return false;
      }
    }
    return true;
  }

  method ServeAll(byName: map<string, Component>, children: map<string, seq<string>>,
                  indegree0: map<string, int>, queue0: seq<string>, ghost g: Graph<string>)
    returns (out: seq<Component>, ghost order: seq<string>)
    requires DependentsOf(g, children) && KnownDependents(g, children)
    requires QueueLoop(g, [], queue0, indegree0)
    ensures order == FifoOrder(g) && out == Pick(byName, order)
  {
    var indegree, queue := indegree0, queue0;
    out, order := [], [];
    while queue != []
      invariant QueueLoop(g, order, queue, indegree)
      invariant Picked(byName, order, out)
      decreases Unplaced(g, order)
    {
      var head: string;
      head, indegree, queue := ServeHead(children, indegree, queue, g, order);
      PickedNext(byName, order, out, head);
      out := out + [Get(byName, head)];
      order := order + [head];
    }
    PickedIsPick(byName, order, out);
  }

  lemma QueueStart(g: Graph<string>, queue: seq<string>, indegree: map<string, int>)
    requires ReadyIsZero(g, [], queue, indegree) && Counts(g, [], indegree, []) && Sorted(Less, queue)
    ensures QueueLoop(g, [], queue, indegree)
  {
    ReadyIsQueue(g, [], queue, indegree);
    SortedSeqUnique(AvailableSet(g, []), queue);
  }

  method TopoSort(cs: seq<Component>) returns (r: Result<seq<Component>, OrderError>)
    ensures r == FifoSpec(cs)
  {
    var indexed := IndexByName(cs);
    if indexed.Err? {
      return Err(DuplicateComponent);
    }
    var byName := indexed.value;
    var known := CheckRefs(cs, byName);
    if !known {
      return Err(UnknownRef);
    }
    var names := Names(cs);
    var indegree, children := CountRefs(byName, names);
    var queue := InitialReady(names, indegree, GraphOf(cs));
    QueueStart(GraphOf(cs), queue, indegree);
    var out, order := ServeAll(byName, children, indegree, queue, GraphOf(cs));
    if |out| != |cs| {
      return Err(CycleDetected);
    }
    return Ok(out);
  }

  // ---------------------------------------------------------------- first ready, first served

  /** Where all that `b` refers to is among the first `k` placed, so is all that `a` refers to;
      and of two that became ready at the same moment, `a` has the smaller name. */
  ghost predicate ServedFirst(g: Graph<string>, order: seq<string>, a: string, b: string) {
    && (forall k :: 0 <= k <= |order| ==> ReadyAfter(g, order, b, k) ==> ReadyAfter(g, order, a, k))
    && ((forall k :: 0 <= k <= |order| ==> (ReadyAfter(g, order, a, k) <==> ReadyAfter(g, order, b, k))) ==>
          ComesFirst(a, b))
  }

  ghost predicate ReadyAfter(g: Graph<string>, order: seq<string>, n: string, k: int)
    requires 0 <= k <= |order|
  {
    RefsIn(g, n, order[..k])
  }

  ghost predicate InLine(g: Graph<string>, order: seq<string>, line: seq<string>) {
    forall i, j :: 0 <= i < j < |line| ==> ServedFirst(g, order, line[i], line[j])
  }

  ghost predicate AllReady(g: Graph<string>, out: seq<string>, line: seq<string>) {
    forall n :: n in line ==> RefsIn(g, n, out)
  }

  lemma ReadyAfterNext(g: Graph<string>, out: seq<string>, x: string, n: string, k: int)
    requires 0 <= k <= |out|
    ensures ReadyAfter(g, out + [x], n, k) <==> ReadyAfter(g, out, n, k)
    ensures RefsIn(g, n, out) ==> ReadyAfter(g, out + [x], n, |out| + 1)
  {
    assert (out + [x])[..k] == out[..k];
    assert (out + [x])[..|out| + 1] == out + [x];
  }

  lemma ServedFirstNext(g: Graph<string>, out: seq<string>, x: string, a: string, b: string)
    requires ServedFirst(g, out, a, b) && RefsIn(g, a, out) && RefsIn(g, b, out)
    ensures ServedFirst(g, out + [x], a, b)
  {
    forall k | 0 <= k <= |out|
      ensures ReadyAfter(g, out + [x], a, k) <==> ReadyAfter(g, out, a, k)
      ensures ReadyAfter(g, out + [x], b, k) <==> ReadyAfter(g, out, b, k)
    {
      ReadyAfterNext(g, out, x, a, k);
      ReadyAfterNext(g, out, x, b, k);
    }
    ReadyAfterNext(g, out, x, a, |out|);
    ReadyAfterNext(g, out, x, b, |out|);
  }

  lemma StaysReady(g: Graph<string>, out: seq<string>, n: string, k: int)
    requires 0 <= k <= |out|
    ensures ReadyAfter(g, out, n, k) ==> RefsIn(g, n, out)
  {
    assert forall r :: r in out[..k] ==> r in out;
  }

  /** What was ready before stands before what has just become ready. */
  lemma OldBeforeNew(g: Graph<string>, out: seq<string>, x: string, a: string, b: string)
    requires RefsIn(g, a, out) && !RefsIn(g, b, out) && RefsIn(g, b, out + [x])
    ensures ServedFirst(g, out + [x], a, b)
  {
    forall k | 0 <= k <= |out|
      ensures !ReadyAfter(g, out + [x], b, k)
    {
      ReadyAfterNext(g, out, x, b, k);
      StaysReady(g, out, b, k);
    }
    ReadyAfterNext(g, out, x, a, |out|);
    assert out[..|out|] == out;
    assert ReadyAfter(g, out + [x], a, |out|);
  }

  lemma NewInOrder(g: Graph<string>, out: seq<string>, x: string, a: string, b: string)
    requires !RefsIn(g, a, out) && RefsIn(g, a, out + [x]) && !RefsIn(g, b, out) && ComesFirst(a, b)
    ensures ServedFirst(g, out + [x], a, b)
  {
    forall k | 0 <= k <= |out|
      ensures !ReadyAfter(g, out + [x], b, k)
    {
      ReadyAfterNext(g, out, x, b, k);
      StaysReady(g, out, b, k);
    }
    assert (out + [x])[..|out| + 1] == out + [x];
  }

  lemma SortedPair(s: set<string>, i: nat, j: nat)
    requires i < j < |SortedSeq(s)|
    ensures ComesFirst(SortedSeq(s)[i], SortedSeq(s)[j])
  {
    SortedSeqSorted(s);
    SortedIsAscending(SortedSeq(s));
  }

  lemma NewlyReadyIs(g: Graph<string>, out: seq<string>, x: string, n: string)
    requires n in NewlyReady(g, out, x)
    ensures !RefsIn(g, n, out) && RefsIn(g, n, out + [x])
  {
  }

  lemma LineGrows(g: Graph<string>, out: seq<string>, x: string, line: seq<string>)
    requires InLine(g, out, line) && AllReady(g, out, line)
    ensures InLine(g, out + [x], line + SortedSeq(NewlyReady(g, out, x)))
    ensures AllReady(g, out + [x], line + SortedSeq(NewlyReady(g, out, x)))
  {
    var more := SortedSeq(NewlyReady(g, out, x));
    forall n | n in line + more
      ensures RefsIn(g, n, out + [x])
    {
      if n in more {
        NewlyReadyIs(g, out, x, n);
      }
    }
    FrontInLine(g, out, x, line);
    forall i, j | 0 <= i < |line| && 0 <= j < |more|
      ensures ServedFirst(g, out + [x], line[i], more[j])
    {
      assert line[i] in line;
      BehindTheLine(g, out, x, line[i], j);
    }
    forall i, j | 0 <= i < j < |more|
      ensures ServedFirst(g, out + [x], more[i], more[j])
    {
      BothNew(g, out, x, i, j);
    }
    JoinLines(g, out + [x], line, more);
  }

  lemma FrontInLine(g: Graph<string>, out: seq<string>, x: string, line: seq<string>)
    requires InLine(g, out, line) && AllReady(g, out, line)
    ensures InLine(g, out + [x], line)
  {
    forall i, j | 0 <= i < j < |line|
      ensures ServedFirst(g, out + [x], line[i], line[j])
    {
      assert line[i] in line && line[j] in line;
      ServedFirstNext(g, out, x, line[i], line[j]);
    }
  }

  lemma JoinLines(g: Graph<string>, order: seq<string>, a: seq<string>, b: seq<string>)
    requires InLine(g, order, a) && InLine(g, order, b)
    requires forall i, j :: 0 <= i < |a| && 0 <= j < |b| ==> ServedFirst(g, order, a[i], b[j])
    ensures InLine(g, order, a + b)
  {
    var all := a + b;
    forall i, j | 0 <= i < j < |all|
      ensures ServedFirst(g, order, all[i], all[j])
    {
      if j < |a| {
        assert all[i] == a[i] && all[j] == a[j] && ServedFirst(g, order, a[i], a[j]);
      } else if i < |a| {
        assert all[i] == a[i] && all[j] == b[j - |a|] && ServedFirst(g, order, a[i], b[j - |a|]);
      } else {
        assert all[i] == b[i - |a|] && all[j] == b[j - |a|] && ServedFirst(g, order, b[i - |a|], b[j - |a|]);
      }
    }
  }

  lemma BehindTheLine(g: Graph<string>, out: seq<string>, x: string, a: string, j: nat)
    requires RefsIn(g, a, out) && j < |SortedSeq(NewlyReady(g, out, x))|
    ensures ServedFirst(g, out + [x], a, SortedSeq(NewlyReady(g, out, x))[j])
  {
    var b := SortedSeq(NewlyReady(g, out, x))[j];
    assert b in SortedSeq(NewlyReady(g, out, x));
    NewlyReadyIs(g, out, x, b);
    OldBeforeNew(g, out, x, a, b);
  }

  lemma BothNew(g: Graph<string>, out: seq<string>, x: string, i: nat, j: nat)
    requires i < j < |SortedSeq(NewlyReady(g, out, x))|
    ensures ServedFirst(g, out + [x], SortedSeq(NewlyReady(g, out, x))[i], SortedSeq(NewlyReady(g, out, x))[j])
  {
    var more := SortedSeq(NewlyReady(g, out, x));
    assert more[i] in more && more[j] in more;
    NewlyReadyIs(g, out, x, more[i]);
    NewlyReadyIs(g, out, x, more[j]);
    SortedPair(NewlyReady(g, out, x), i, j);
    NewInOrder(g, out, x, more[i], more[j]);
  }

  lemma HeadMoves(out: seq<string>, queue: seq<string>, more: seq<string>)
    requires queue != []
    ensures (out + [queue[0]]) + (queue[1..] + more) == out + queue + more
  {
  }

  lemma {:induction false} FifoInLine(g: Graph<string>, out: seq<string>, queue: seq<string>)
    requires QueueState(g, out, queue) && InLine(g, out, out + queue) && AllReady(g, out, out + queue)
    ensures InLine(g, Fifo(g, out, queue), Fifo(g, out, queue))
    decreases Unplaced(g, out)
  {
    if queue == [] {
      assert out + queue == out;
    } else {
      var more := SortedSeq(NewlyReady(g, out, queue[0]));
      FifoStep(g, out, queue);
      LineGrows(g, out, queue[0], out + queue);
      HeadMoves(out, queue, more);
      FifoInLine(g, out + [queue[0]], queue[1..] + more);
    }
  }

  /** The queue's order, without the queue: components come in the order in which they become
      ready, and those that become ready at the same moment in the order of their names. */
  lemma FirstReadyFirstServed(cs: seq<Component>)
    requires FifoSpec(cs).Ok?
    ensures InLine(GraphOf(cs), Names(FifoSpec(cs).value), Names(FifoSpec(cs).value))
  {
    var g := GraphOf(cs);
    FirstLine(g);
    FifoInLine(g, [], SortedSeq(AvailableSet(g, [])));
    GraphSize(cs);
    FifoComplete(g);
    PickNames(Index(cs), FifoOrder(g));
  }

  lemma FirstLine(g: Graph<string>)
    ensures var none, first := [], SortedSeq(AvailableSet(g, []));
            QueueState(g, none, first) && InLine(g, none, none + first) && AllReady(g, none, none + first)
  {
    var first := SortedSeq(AvailableSet(g, []));
    var none: seq<string> := [];
    forall i, j | 0 <= i < j < |first|
      ensures ServedFirst(g, none, first[i], first[j])
    {
      SortedPair(AvailableSet(g, []), i, j);
      assert first[i] in first && first[j] in first;
      assert none[..0] == none;
    }
    assert none + first == first;
    forall n | n in first
      ensures RefsIn(g, n, none)
    {
    }
  }
}

/** Directed reference graphs: a node maps to the nodes it refers to. References to
    nodes outside the graph are not edges. */
module RefGraph {
  import opened Order

  type Graph<!N> = map<N, seq<N>>

  predicate Edge<N(==)>(g: Graph<N>, a: N, b: N) {
    a in g && b in g && b in g[a]
  }

  /** A nonempty path that follows edges. */
  ghost predicate Walk<N>(g: Graph<N>, p: seq<N>) {
    && |p| > 0
    && (forall i :: 0 <= i < |p| ==> p[i] in g)
    && (forall i :: 0 <= i < |p| - 1 ==> Edge(g, p[i], p[i + 1]))
  }

  ghost predicate Cycle<N>(g: Graph<N>, p: seq<N>) {
    Walk(g, p) && |p| >= 2 && p[0] == p[|p| - 1]
  }

  ghost predicate Cyclic<N(!new)>(g: Graph<N>) {
    exists p :: Cycle(g, p)
  }

  /** Every edge goes to a node of smaller measure. */
  ghost predicate Decreasing<N(!new)>(g: Graph<N>, measure: map<N, int>) {
    forall a, b :: Edge(g, a, b) ==> a in measure && b in measure && measure[b] < measure[a]
  }

  lemma WalkCons<N>(g: Graph<N>, n: N, p: seq<N>)
    requires Walk(g, p) && Edge(g, n, p[0])
    ensures Walk(g, [n] + p)
  {
    var q := [n] + p;
    forall i | 0 <= i < |q| - 1
      ensures Edge(g, q[i], q[i + 1])
    {
      if i > 0 {
        assert Edge(g, p[i - 1], p[i]);
      }
    }
  }

  lemma WalkTail<N>(g: Graph<N>, p: seq<N>)
    requires Walk(g, p) && |p| >= 2
    ensures Walk(g, p[1..]) && Edge(g, p[0], p[1])
  {
    var q := p[1..];
    forall i | 0 <= i < |q| - 1
      ensures Edge(g, q[i], q[i + 1])
    {
      assert Edge(g, p[i + 1], p[i + 2]);
    }
  }

  lemma {:induction false} WalkDecreases<N(!new)>(g: Graph<N>, measure: map<N, int>, p: seq<N>)
    requires Walk(g, p) && |p| >= 2 && Decreasing(g, measure)
    ensures p[0] in measure && p[|p| - 1] in measure
    ensures measure[p[|p| - 1]] < measure[p[0]]
  {
    WalkTail(g, p);
    if |p| > 2 {
      WalkDecreases(g, measure, p[1..]);
    }
  }

  lemma DecreasingIsAcyclic<N(!new)>(g: Graph<N>, measure: map<N, int>)
    requires Decreasing(g, measure)
    ensures !Cyclic(g)
  {
    if Cyclic(g) {
      var p :| Cycle(g, p);
      WalkDecreases(g, measure, p);
    }
  }

  lemma DistinctWithin<N>(p: seq<N>, s: set<N>)
    requires Distinct(p) && forall x :: x in p ==> x in s
    ensures |p| <= |s|
    ensures |p| == |s| ==> forall x :: x in s ==> x in p
  {
    if p == [] {
      if |s| == 0 {
        assert s == {};
      }
    } else {
      var rest, x := p[1..], p[0];
      assert forall i :: 0 <= i < |rest| ==> rest[i] == p[i + 1];
      assert p == [x] + rest;
      DistinctWithin(rest, s - {x});
    }
  }

  ghost predicate HasSuccessorIn<N(!new)>(g: Graph<N>, s: set<N>, a: N) {
    exists b :: b in s && Edge(g, a, b)
  }

  /** Every node of `s` has an edge back into `s`. */
  ghost predicate ClosedUnderEdges<N(!new)>(g: Graph<N>, s: set<N>) {
    forall a {:trigger HasSuccessorIn(g, s, a)} :: a in s ==> HasSuccessorIn(g, s, a)
  }

  /** A finite nonempty set whose every node has an edge back into it holds a cycle:
      a path that keeps following such edges must repeat a node. */
  lemma {:induction false} ClosedSetHasCycle<N(!new)>(g: Graph<N>, s: set<N>, path: seq<N>)
    requires Walk(g, path) && Distinct(path) && forall x :: x in path ==> x in s
    requires ClosedUnderEdges(g, s)
    ensures Cyclic(g)
    decreases |s| - |path|
  {
    DistinctWithin(path, s);
    var last := path[|path| - 1];
    assert last in path && HasSuccessorIn(g, s, last);
    var next :| next in s && Edge(g, last, next);
    var longer := path + [next];
    assert Walk(g, longer);
    if next in path {
      var k :| 0 <= k < |path| && path[k] == next;
      var loop := longer[k..];
      assert forall i :: 0 <= i < |loop| ==> loop[i] == longer[k + i];
      assert forall i {:trigger loop[i]} :: 0 <= i < |loop| - 1 ==> Edge(g, longer[k + i], longer[k + i + 1]);
      assert Cycle(g, loop);
    } else {
      DistinctWithin(longer, s);
      ClosedSetHasCycle(g, s, longer);
    }
  }

  lemma ClosedSetIsCyclic<N(!new)>(g: Graph<N>, s: set<N>)
    requires s != {}
    requires ClosedUnderEdges(g, s)
    ensures Cyclic(g)
  {
    var a :| a in s;
    assert HasSuccessorIn(g, s, a);
    var b :| b in s && Edge(g, a, b);
    ClosedSetHasCycle(g, s, [a]);
  }

  /** A walk that returns to one of its own nodes contains a cycle. */
  lemma WalkBackIsCyclic<N(!new)>(g: Graph<N>, p: seq<N>, next: N)
    requires Walk(g, p) && next in p && Edge(g, p[|p| - 1], next)
    ensures Cyclic(g)
  {
    var k :| 0 <= k < |p| && p[k] == next;
    var loop := p[k..] + [next];
    assert Cycle(g, loop);
  }

  /** `order` lists the graph's nodes once each, every node after the nodes it refers to. */
  ghost predicate TopologicalOrder<N(!new)>(g: Graph<N>, order: seq<N>) {
    && Distinct(order)
    && (forall n :: n in order <==> n in g)
    && (forall i, j :: 0 <= i < |order| && 0 <= j < |order| && Edge(g, order[i], order[j]) ==> j < i)
  }

  ghost function Position<N>(order: seq<N>, x: N): (i: nat)
    requires x in order
    ensures i < |order| && order[i] == x
    ensures x !in order[..i]
  {
    if order[0] == x then 0 else 1 + Position(order[1..], x)
  }

  lemma OrderedIsAcyclic<N(!new)>(g: Graph<N>, order: seq<N>)
    requires TopologicalOrder(g, order)
    ensures !Cyclic(g)
  {
    var measure := map n | n in g :: Position(order, n);
    forall a, b | Edge(g, a, b)
      ensures measure[b] < measure[a]
    {
      assert order[measure[a]] == a && order[measure[b]] == b;
    }
    DecreasingIsAcyclic(g, measure);
  }
}

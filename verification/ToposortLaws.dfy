/** What `Toposort` promises, proved about its specification on every component list. */
module ToposortLaws {
  import opened Order
  import opened RefGraph
  import opened Components
  import opened Toposort

  /** Every placed component comes after all the known components it refers to. */
  ghost predicate Placed(g: Graph<string>, out: seq<string>) {
    && Distinct(out)
    && (forall n :: n in out ==> n in g)
    && (forall i :: 0 <= i < |out| ==> RefsIn(g, out[i], out[..i]))
  }

  ghost predicate RefsIn(g: Graph<string>, n: string, done: seq<string>) {
    n in g && forall r :: r in g[n] && r in g ==> r in done
  }

  lemma PlacedNext(g: Graph<string>, out: seq<string>, n: string)
    requires Placed(g, out) && Available(g, out, n)
    ensures Placed(g, out + [n])
  {
    var longer := out + [n];
    forall i | 0 <= i < |longer|
      ensures RefsIn(g, longer[i], longer[..i])
    {
      if i < |out| {
        assert longer[..i] == out[..i] && longer[i] == out[i];
      } else {
        assert longer[..i] == out;
      }
    }
  }

  lemma LeastAvailable(g: Graph<string>, out: seq<string>)
    requires AvailableSet(g, out) != {}
    ensures var next := LeastName(AvailableSet(g, out));
            && Available(g, out, next)
            && Unplaced(g, out + [next]) < Unplaced(g, out)
  {
    var next := LeastName(AvailableSet(g, out));
    assert (g.Keys - set n | n in out + [next]) == (g.Keys - set n | n in out) - {next};
  }

  /** The greedy order extends what is placed, stays ordered, and stops only when stuck. */
  lemma {:induction false} GreedySound(g: Graph<string>, out: seq<string>)
    requires Placed(g, out)
    ensures var r := Greedy(g, out);
            && Placed(g, r) && AvailableSet(g, r) == {}
            && out <= r
    decreases Unplaced(g, out)
  {
    if AvailableSet(g, out) != {} {
      LeastAvailable(g, out);
      var next := LeastName(AvailableSet(g, out));
      PlacedNext(g, out, next);
      GreedySound(g, out + [next]);
      assert out <= out + [next];
    }
  }

  lemma PlacedAllIsTopological(g: Graph<string>, out: seq<string>)
    requires Placed(g, out) && |out| == |g|
    ensures TopologicalOrder(g, out)
  {
    assert |g.Keys| == |g|;
    DistinctWithin(out, g.Keys);
    forall i, j | 0 <= i < |out| && 0 <= j < |out| && Edge(g, out[i], out[j])
      ensures j < i
    {
      assert RefsIn(g, out[i], out[..i]);
      assert out[j] in out[..i];
    }
  }

  lemma TopologicalIsPlaced(g: Graph<string>, q: seq<string>, k: nat)
    requires TopologicalOrder(g, q) && k <= |q|
    ensures Placed(g, q[..k])
  {
    forall i | 0 <= i < k
      ensures RefsIn(g, q[i], q[..k][..i])
    {
      forall r | r in g[q[i]] && r in g
        ensures r in q[..k][..i]
      {
        assert r in q;
        var j :| 0 <= j < |q| && q[j] == r;
        assert Edge(g, q[i], q[j]);
        assert q[..k][..i][j] == r;
      }
    }
  }

  lemma StuckIsCyclic(g: Graph<string>, out: seq<string>)
    requires Placed(g, out) && AvailableSet(g, out) == {} && |out| < |g|
    ensures Cyclic(g)
  {
    var left := set n | n in g && n !in out;
    SomeUnplaced(g, out);
    forall a | a in left
      ensures HasSuccessorIn(g, left, a)
    {
      assert a !in AvailableSet(g, out) && !Available(g, out, a);
      var b :| b in g[a] && b in g && b !in out;
      assert Edge(g, a, b) && b in left;
    }
    ClosedSetIsCyclic(g, left);
  }

  lemma SomeUnplaced(g: Graph<string>, out: seq<string>)
    requires |out| < |g|
    ensures (set n | n in g && n !in out) != {}
  {
    var left, placed := set n | n in g && n !in out, set n | n in out;
    SeqSetSize(out, placed);
    assert |g.Keys| == |g|;
    assert g.Keys <= placed + left;
    if left == {} {
      SubsetSize(g.Keys, placed);
    }
  }

  lemma SeqSetSize(s: seq<string>, t: set<string>)
    requires t == set n | n in s
    ensures |t| <= |s|
  {
    if s != [] {
      var rest := set n | n in s[1..];
      SeqSetSize(s[1..], rest);
      assert s == [s[0]] + s[1..];
      assert t == rest + {s[0]};
    } else {
      assert t == {};
    }
  }

  lemma SubsetSize<T>(a: set<T>, b: set<T>)
    requires a <= b
    ensures |a| <= |b|
  {
    if a != {} {
      var x :| x in a;
      SubsetSize(a - {x}, b - {x});
    }
  }

  /** Kahn's algorithm places everything exactly when there is no cycle. */
  lemma GreedyComplete(g: Graph<string>)
    ensures |Greedy(g, [])| == |g| <==> !Cyclic(g)
    ensures |Greedy(g, [])| <= |g|
  {
    GreedySound(g, []);
    var r := Greedy(g, []);
    assert |g.Keys| == |g|;
    DistinctWithin(r, g.Keys);
    if |r| == |g| {
      PlacedAllIsTopological(g, r);
      OrderedIsAcyclic(g, r);
    } else {
      StuckIsCyclic(g, r);
    }
  }

  /** `a` is at or before `b` in the order of name sequences. */
  ghost predicate LexAtMost(a: seq<string>, b: seq<string>) {
    a == b || exists i :: LexFirst(a, b, i)
  }

  ghost predicate LexFirst(a: seq<string>, b: seq<string>, i: int) {
    0 <= i < |a| && i < |b| && a[..i] == b[..i] && ComesFirst(a[i], b[i])
  }

  lemma {:induction false} GreedyIsLeast(g: Graph<string>, out: seq<string>, q: seq<string>)
    requires TopologicalOrder(g, q) && out <= q
    ensures LexAtMost(Greedy(g, out), q)
    decreases Unplaced(g, out)
  {
    if |out| == |q| {
      assert out == q;
      assert AvailableSet(g, out) == {};
    } else {
      NextOfOrderIsAvailable(g, out, q);
      LeastAvailable(g, out);
      var next := LeastName(AvailableSet(g, out));
      if q[|out|] == next {
        GreedyIsLeast(g, out + [next], q);
      } else {
        GreedyBranchesLower(g, out, q, next);
      }
    }
  }

  lemma GreedyBranchesLower(g: Graph<string>, out: seq<string>, q: seq<string>, next: string)
    requires TopologicalOrder(g, q) && out <= q && |out| < |q|
    requires AvailableSet(g, out) != {} && next == LeastName(AvailableSet(g, out))
    requires Available(g, out, next) && Less(next, q[|out|])
    ensures LexFirst(Greedy(g, out), q, |out|)
  {
    TopologicalIsPlaced(g, q, |out|);
    assert q[..|out|] == out;
    PlacedNext(g, out, next);
    GreedySound(g, out + [next]);
    var r := Greedy(g, out + [next]);
    assert r[|out|] == (out + [next])[|out|];
    assert r[..|out|] == out;
    LessIsComesFirst(next, q[|out|]);
  }

  lemma NextOfOrderIsAvailable(g: Graph<string>, out: seq<string>, q: seq<string>)
    requires TopologicalOrder(g, q) && |out| < |q| && out <= q
    ensures Available(g, out, q[|out|]) && q[|out|] in AvailableSet(g, out)
  {
    var n := q[|out|];
    TopologicalIsPlaced(g, q, |out| + 1);
    assert q[..|out| + 1][..|out|] == out && q[..|out| + 1][|out|] == n;
    assert RefsIn(g, n, out);
    assert n in q;
  }

  /** `Toposort` succeeds exactly on unique names without a reference cycle, and says which
      of the two is wrong when it fails. */
  lemma ToposortSucceedsIffAcyclic(cs: seq<Component>)
    ensures TopoSpec(cs).Ok? <==> UniqueNames(cs) && !Cyclic(GraphOf(cs))
    ensures TopoSpec(cs) == Err(DuplicateComponent) <==> !UniqueNames(cs)
    ensures TopoSpec(cs) == Err(CycleDetected) <==> UniqueNames(cs) && Cyclic(GraphOf(cs))
  {
    if UniqueNames(cs) {
      GraphSize(cs);
      GreedyComplete(GraphOf(cs));
    }
  }

  lemma PickNames(m: map<string, Component>, names: seq<string>)
    requires forall n :: n in names ==> n in m
    requires forall n :: n in m ==> m[n].name == n
    ensures Names(Pick(m, names)) == names
  {
    var r := Pick(m, names);
    forall i | 0 <= i < |names|
      ensures r[i].name == names[i]
    {
      assert names[i] in names;
    }
  }

  lemma GraphSize(cs: seq<Component>)
    requires UniqueNames(cs)
    ensures GraphOf(cs).Keys == Index(cs).Keys && |GraphOf(cs)| == |cs|
  {
    IndexSize(cs);
    assert GraphOf(cs).Keys == Index(cs).Keys;
    assert |GraphOf(cs).Keys| == |GraphOf(cs)| && |Index(cs).Keys| == |Index(cs)|;
  }

  lemma ToposortResult(cs: seq<Component>)
    requires TopoSpec(cs).Ok?
    ensures var order := Greedy(GraphOf(cs), []);
            && UniqueNames(cs)
            && TopologicalOrder(GraphOf(cs), order)
            && TopoSpec(cs).value == Pick(Index(cs), order)
            && Names(TopoSpec(cs).value) == order
  {
    var g, order := GraphOf(cs), Greedy(GraphOf(cs), []);
    GraphSize(cs);
    GreedySound(g, []);
    PlacedAllIsTopological(g, order);
    PickNames(Index(cs), order);
  }

  /** Its result is a permutation of the input with every known reference, repeated or not,
      before its dependent, and no such order has a smaller sequence of names. */
  lemma ToposortOrders(cs: seq<Component>)
    requires TopoSpec(cs).Ok?
    ensures multiset(TopoSpec(cs).value) == multiset(cs)
    ensures TopologicalOrder(GraphOf(cs), Names(TopoSpec(cs).value))
    ensures forall q :: TopologicalOrder(GraphOf(cs), q) ==> LexAtMost(Names(TopoSpec(cs).value), q)
  {
    var g, order := GraphOf(cs), Greedy(GraphOf(cs), []);
    ToposortResult(cs);
    GraphSize(cs);
    PickIsPermutation(cs, order);
    forall q | TopologicalOrder(g, q)
      ensures LexAtMost(order, q)
    {
      GreedyIsLeast(g, [], q);
    }
  }

  lemma DistinctSameElements(s: seq<Component>, t: seq<Component>)
    requires Distinct(s) && Distinct(t) && forall c :: c in s <==> c in t
    ensures multiset(s) == multiset(t)
  {
    MultisetDistinct(s);
    MultisetDistinct(t);
    forall c
      ensures multiset(s)[c] == multiset(t)[c]
    {
      assert c in s <==> c in multiset(s);
      assert c in t <==> c in multiset(t);
    }
  }

  lemma PickElements(cs: seq<Component>, order: seq<string>, c: Component)
    requires UniqueNames(cs) && forall n :: n in order <==> n in Index(cs)
    ensures c in Pick(Index(cs), order) <==> c in cs
  {
    var r := Pick(Index(cs), order);
    if c in cs {
      var i :| 0 <= i < |cs| && cs[i] == c;
      IndexAt(cs, i);
      var k :| 0 <= k < |order| && order[k] == c.name;
      assert r[k] == c;
    }
    if c in r {
      var k :| 0 <= k < |r| && r[k] == c;
      assert order[k] in order;
    }
  }

  lemma PickIsPermutation(cs: seq<Component>, order: seq<string>)
    requires UniqueNames(cs) && Distinct(order) && forall n :: n in order <==> n in Index(cs)
    ensures multiset(Pick(Index(cs), order)) == multiset(cs)
  {
    var r := Pick(Index(cs), order);
    UniqueNamesByElement(cs);
    forall c
      ensures c in r <==> c in cs
    {
      PickElements(cs, order, c);
    }
    PickNames(Index(cs), order);
    UniqueNamesByElement(r);
    DistinctSameElements(r, cs);
  }

  /** The declaration order does not matter, for the result or for the error. */
  lemma ToposortIgnoresDeclarationOrder(cs: seq<Component>, ds: seq<Component>)
    requires multiset(cs) == multiset(ds)
    ensures TopoSpec(cs) == TopoSpec(ds)
  {
    SameElements(cs, ds);
    if UniqueNames(cs) {
      IndexPermuted(cs, ds);
    } else if UniqueNames(ds) {
      IndexPermuted(ds, cs);
    }
  }
}

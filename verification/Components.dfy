/** The parts of the IR that ordering reads, and the reference graph of a component list. */
module Components {
  import opened Order
  import opened RefGraph

  datatype Result<+T, +E> = Ok(value: T) | Err(error: E)

  datatype Option<+T> = None | Some(value: T)

  datatype Ref = Ref(component: string, output: string)

  datatype Target = Target(cloud: string, region: string)

  datatype Component = Component(name: string, kind: string, targets: seq<Target>, refs: seq<Ref>)

  datatype OrderError = DuplicateComponent | UnknownRef | CycleDetected

  function Names(cs: seq<Component>): (r: seq<string>)
    ensures |r| == |cs| && forall i :: 0 <= i < |cs| ==> r[i] == cs[i].name
  {
    seq(|cs|, i requires 0 <= i < |cs| => cs[i].name)
  }

  ghost predicate UniqueNames(cs: seq<Component>) {
    Distinct(Names(cs))
  }

  function RefNames(refs: seq<Ref>): (r: seq<string>)
    ensures |r| == |refs| && forall i :: 0 <= i < |refs| ==> r[i] == refs[i].component
  {
    seq(|refs|, i requires 0 <= i < |refs| => refs[i].component)
  }

  /** The map a loop over `cs` builds by assigning under each name: the last one wins. */
  function Index(cs: seq<Component>): (m: map<string, Component>)
    ensures forall n :: n in m <==> n in Names(cs)
    ensures forall n :: n in m ==> m[n] in cs && m[n].name == n
  {
    if cs == [] then
      map[]
    else
      var init, last := cs[..|cs| - 1], cs[|cs| - 1];
      assert Names(cs) == Names(init) + [last.name];
      Index(init)[last.name := last]
  }

  /** Known and unknown references alike; `Edge` keeps the known ones. */
  function RefsByName(byName: map<string, Component>): Graph<string> {
    map n | n in byName :: RefNames(byName[n].refs)
  }

  function GraphOf(cs: seq<Component>): Graph<string> {
    RefsByName(Index(cs))
  }

  /** A map lookup as Go performs it: a missing name yields the zero component. */
  function Get(m: map<string, Component>, name: string): Component {
    if name in m then m[name] else Component("", "", [], [])
  }

  function Pick(m: map<string, Component>, names: seq<string>): (r: seq<Component>)
    ensures |r| == |names| && forall i :: 0 <= i < |r| ==> r[i] == Get(m, names[i])
  {
    seq(|names|, i requires 0 <= i < |names| => Get(m, names[i]))
  }

  lemma {:induction false} IndexAt(cs: seq<Component>, i: nat)
    requires UniqueNames(cs) && i < |cs|
    ensures cs[i].name in Index(cs) && Index(cs)[cs[i].name] == cs[i]
  {
    var name := cs[i].name;
    assert Names(cs)[i] == name;
    var c := Index(cs)[name];
    assert c in cs && c.name == name;
    SameNameSameComponent(cs, c, i);
  }

  lemma SameNameSameComponent(cs: seq<Component>, c: Component, i: nat)
    requires UniqueNames(cs) && i < |cs| && c in cs && c.name == cs[i].name
    ensures c == cs[i]
  {
    var j :| 0 <= j < |cs| && cs[j] == c;
    assert Names(cs)[j] == Names(cs)[i];
  }

  lemma IndexSize(cs: seq<Component>)
    requires UniqueNames(cs)
    ensures |Index(cs)| == |cs|
  {
    if cs != [] {
      var init := cs[..|cs| - 1];
      var names := Names(cs);
      assert forall i :: 0 <= i < |init| ==> Names(init)[i] == names[i];
      IndexSize(init);
      assert cs[|cs| - 1].name !in Names(init) by {
        assert names[|cs| - 1] == cs[|cs| - 1].name;
      }
    }
  }

  lemma UniqueNamesByElement(cs: seq<Component>)
    ensures UniqueNames(cs) <==>
            Distinct(cs) && forall c, d :: c in cs && d in cs && c.name == d.name ==> c == d
  {
    var names := Names(cs);
    if UniqueNames(cs) {
      forall i, j | 0 <= i < j < |cs|
        ensures cs[i] != cs[j]
      {
        assert names[i] != names[j];
      }
      forall c, d | c in cs && d in cs && c.name == d.name
        ensures c == d
      {
        var i :| 0 <= i < |cs| && cs[i] == d;
        SameNameSameComponent(cs, c, i);
      }
    }
  }

  lemma {:induction false} IndexIncluded(cs: seq<Component>, ds: seq<Component>, n: string)
    requires UniqueNames(ds) && (forall c :: c in cs ==> c in ds) && n in Index(cs)
    ensures n in Index(ds) && Index(ds)[n] == Index(cs)[n]
  {
    var c := Index(cs)[n];
    assert c in cs;
    var j :| 0 <= j < |ds| && ds[j] == c;
    IndexAt(ds, j);
  }

  /** With unique names the index, and so the graph, forgets the declaration order. */
  lemma {:induction false} IndexPermuted(cs: seq<Component>, ds: seq<Component>)
    requires multiset(cs) == multiset(ds) && UniqueNames(cs)
    ensures UniqueNames(ds) && Index(cs) == Index(ds)
  {
    SameElements(cs, ds);
    assert UniqueNames(ds) by {
      UniqueNamesByElement(cs);
      UniqueNamesByElement(ds);
      PermutationDistinct(cs, ds);
    }
    IndexContained(cs, ds);
    IndexContained(ds, cs);
    SameMap(Index(cs), Index(ds));
  }

  lemma {:induction false} IndexContained(cs: seq<Component>, ds: seq<Component>)
    requires UniqueNames(ds) && forall c :: c in cs ==> c in ds
    ensures forall n :: n in Index(cs) ==> n in Index(ds) && Index(ds)[n] == Index(cs)[n]
  {
    forall n | n in Index(cs)
      ensures n in Index(ds) && Index(ds)[n] == Index(cs)[n]
    {
      IndexIncluded(cs, ds, n);
    }
  }

  lemma SameMap(a: map<string, Component>, b: map<string, Component>)
    requires forall n :: n in a ==> n in b && b[n] == a[n]
    requires forall n :: n in b ==> n in a
    ensures a == b
  {
  }
}

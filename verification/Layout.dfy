/** `Layout`: one box per component, in a row (or column) per rank, and one edge per known
    reference. */
module Layout {
  import opened Order
  import opened RefGraph
  import opened Components
  import opened ToposortLaws
  import opened Ranks
  import opened Planning
  import opened FifoSort

  datatype Direction = TopDown | LeftRight

  /** A direction other than "lr" counts as "tb". */
  function DirectionOrDefault(asked: string): Direction {
    if asked == "lr" then LeftRight else TopDown
  }

  const NODE_W := 140
  const NODE_H := 56
  const GAP_X := 32
  const GAP_Y := 64
  const MARGIN_X := 24
  const MARGIN_Y := 24

  datatype Box = Box(name: string, kind: string, x: int, y: int, w: int, h: int)

  /** An orthogonal path: out of the source's side, along `mid`, into the destination's side. */
  datatype Route = Route(x1: int, y1: int, x2: int, y2: int, mid: int)

  datatype EdgePath = EdgePath(from: string, to: string, route: Route, matched: bool)

  datatype Output = Output(width: int, height: int, direction: Direction, nodes: seq<Box>, edges: seq<EdgePath>,
                           hasErrors: bool)

  // ---------------------------------------------------------------- columns

  function ByName(): (Component, Component) -> bool {
    (a: Component, b: Component) => Less(a.name, b.name)
  }

  /** The components of rank `r`, in declaration order. */
  function Bucket(cs: seq<Component>, rank: map<string, int>, r: int): seq<Component> {
    if cs == [] then []
    else
      var last := cs[|cs| - 1];
      Bucket(cs[..|cs| - 1], rank, r) + if last.name in rank && rank[last.name] == r then [last] else []
  }

  function Column(cs: seq<Component>, rank: map<string, int>, r: int): seq<Component> {
    StableSort(ByName(), Bucket(cs, rank, r))
  }

  lemma {:induction false} BucketHas(cs: seq<Component>, rank: map<string, int>, r: int, c: Component)
    ensures c in Bucket(cs, rank, r) <==> c in cs && c.name in rank && rank[c.name] == r
  {
    if cs != [] {
      BucketHas(cs[..|cs| - 1], rank, r, c);
      assert cs == cs[..|cs| - 1] + [cs[|cs| - 1]];
    }
  }

  lemma {:induction false} BucketDistinct(cs: seq<Component>, rank: map<string, int>, r: int)
    requires Distinct(cs)
    ensures Distinct(Bucket(cs, rank, r))
  {
    if cs != [] {
      var init, last := cs[..|cs| - 1], cs[|cs| - 1];
      BucketDistinct(init, rank, r);
      BucketHas(init, rank, r, last);
      assert last !in init;
      DistinctConcat(Bucket(init, rank, r), if last.name in rank && rank[last.name] == r then [last] else []);
    }
  }

  lemma ColumnHas(cs: seq<Component>, rank: map<string, int>, r: int, c: Component)
    ensures c in Column(cs, rank, r) <==> c in cs && c.name in rank && rank[c.name] == r
  {
    BucketHas(cs, rank, r, c);
    SameElements(Column(cs, rank, r), Bucket(cs, rank, r));
  }

  lemma ColumnDistinct(cs: seq<Component>, rank: map<string, int>, r: int)
    requires UniqueNames(cs)
    ensures UniqueNames(Column(cs, rank, r))
  {
    var col := Column(cs, rank, r);
    UniqueNamesByElement(cs);
    BucketDistinct(cs, rank, r);
    PermutationDistinct(Bucket(cs, rank, r), col);
    forall c, d | c in col && d in col && c.name == d.name
      ensures c == d
    {
      ColumnHas(cs, rank, r, c);
      ColumnHas(cs, rank, r, d);
    }
    UniqueNamesByElement(col);
  }

  // ---------------------------------------------------------------- boxes

  function BoxAt(c: Component, r: int, i: int, dir: Direction): Box {
    if dir == LeftRight then
      Box(c.name, c.kind, MARGIN_X + r * (NODE_W + GAP_X), MARGIN_Y + i * (NODE_H + GAP_Y), NODE_W, NODE_H)
    else
      Box(c.name, c.kind, MARGIN_X + i * (NODE_W + GAP_X), MARGIN_Y + r * (NODE_H + GAP_Y), NODE_W, NODE_H)
  }

  /** The box of `name` stands at place `i` of the column of its rank. */
  ghost predicate StandsAt(cs: seq<Component>, rank: map<string, int>, dir: Direction, box: Box, name: string, i: int) {
    && name in rank && 0 <= i < |Column(cs, rank, rank[name])|
    && Column(cs, rank, rank[name])[i].name == name
    && box == BoxAt(Column(cs, rank, rank[name])[i], rank[name], i, dir)
  }

  ghost predicate Stands(cs: seq<Component>, rank: map<string, int>, dir: Direction, box: Box, name: string) {
    exists i :: StandsAt(cs, rank, dir, box, name, i)
  }

  ghost predicate AllStand(cs: seq<Component>, rank: map<string, int>, dir: Direction, pos: map<string, Box>) {
    forall n {:trigger Stands(cs, rank, dir, pos[n], n)} :: n in pos ==> Stands(cs, rank, dir, pos[n], n)
  }

  /** Ranks below `r` are placed, and of rank `r` the first `i`. */
  ghost predicate PlacedUpTo(cs: seq<Component>, rank: map<string, int>, pos: map<string, Box>, r: int, i: nat) {
    && (forall c :: c in cs && c.name in rank && rank[c.name] < r ==> c.name in pos)
    && i <= |Column(cs, rank, r)| && forall k :: 0 <= k < i ==> Column(cs, rank, r)[k].name in pos
  }

  lemma PlaceNext(cs: seq<Component>, rank: map<string, int>, dir: Direction, pos: map<string, Box>, r: int, i: nat)
    requires AllStand(cs, rank, dir, pos) && PlacedUpTo(cs, rank, pos, r, i) && i < |Column(cs, rank, r)|
    ensures var c := Column(cs, rank, r)[i];
            && AllStand(cs, rank, dir, pos[c.name := BoxAt(c, r, i, dir)])
            && PlacedUpTo(cs, rank, pos[c.name := BoxAt(c, r, i, dir)], r, i + 1)
  {
    var c := Column(cs, rank, r)[i];
    var more := pos[c.name := BoxAt(c, r, i, dir)];
    ColumnHas(cs, rank, r, c);
    assert c in Column(cs, rank, r);
    assert StandsAt(cs, rank, dir, more[c.name], c.name, i);
    forall n | n in more
      ensures Stands(cs, rank, dir, more[n], n)
    {
      assert n != c.name ==> n in pos;
    }
  }

  lemma RankDone(cs: seq<Component>, rank: map<string, int>, pos: map<string, Box>, r: int)
    requires PlacedUpTo(cs, rank, pos, r, |Column(cs, rank, r)|)
    ensures PlacedUpTo(cs, rank, pos, r + 1, 0)
  {
    forall c | c in cs && c.name in rank && rank[c.name] < r + 1
      ensures c.name in pos
    {
      ColumnHas(cs, rank, r, c);
      if c in Column(cs, rank, r) {
        var k :| 0 <= k < |Column(cs, rank, r)| && Column(cs, rank, r)[k] == c;
      }
    }
  }

  /** The bucket map: absent ranks have an empty bucket. */
  function BucketOf(byRank: map<int, seq<Component>>, r: int): seq<Component> {
    if r in byRank then byRank[r] else []
  }

  ghost predicate Buckets(cs: seq<Component>, rank: map<string, int>, byRank: map<int, seq<Component>>) {
    && (forall r :: r in byRank ==> byRank[r] == Bucket(cs, rank, r))
    && (forall r :: r !in byRank ==> Bucket(cs, rank, r) == [])
  }

  ghost predicate KnownRanks(cs: seq<Component>, rank: map<string, int>) {
    forall c :: c in cs ==> c.name in rank && rank[c.name] >= 0
  }

  lemma BucketsNext(cs: seq<Component>, rank: map<string, int>, byRank: map<int, seq<Component>>, i: nat)
    requires i < |cs| && cs[i].name in rank && Buckets(cs[..i], rank, byRank)
    ensures var r := rank[cs[i].name];
            Buckets(cs[..i + 1], rank, byRank[r := BucketOf(byRank, r) + [cs[i]]])
  {
    assert cs[..i + 1][..i] == cs[..i];
    assert forall r :: Bucket(cs[..i + 1], rank, r) == Bucket(cs[..i], rank, r)
                          + if rank[cs[i].name] == r then [cs[i]] else [];
  }

  /** The keys of the bucket map are the ranks of `cs`, none with an empty bucket. */
  ghost predicate RankKeys(cs: seq<Component>, rank: map<string, int>, byRank: map<int, seq<Component>>) {
    && (forall r :: r in byRank ==> byRank[r] != [] && r >= 0)
    && (forall k :: 0 <= k < |cs| ==> cs[k].name in rank && rank[cs[k].name] in byRank)
  }

  lemma RankKeysNext(cs: seq<Component>, rank: map<string, int>, byRank: map<int, seq<Component>>, i: nat)
    requires i < |cs| && cs[i].name in rank && rank[cs[i].name] >= 0 && RankKeys(cs[..i], rank, byRank)
    ensures var r := rank[cs[i].name];
            RankKeys(cs[..i + 1], rank, byRank[r := BucketOf(byRank, r) + [cs[i]]])
  {
    var init, longer := cs[..i], cs[..i + 1];
    assert forall k :: 0 <= k < i ==> longer[k] == init[k];
  }

  method FillBuckets(cs: seq<Component>, rank: map<string, int>) returns (byRank: map<int, seq<Component>>)
    requires KnownRanks(cs, rank)
    ensures Buckets(cs, rank, byRank) && RankKeys(cs, rank, byRank)
  {
    byRank := map[];
    for i := 0 to |cs|
      invariant Buckets(cs[..i], rank, byRank) && RankKeys(cs[..i], rank, byRank)
    {
      assert cs[i] in cs;
      BucketsNext(cs, rank, byRank, i);
      RankKeysNext(cs, rank, byRank, i);
      var r := rank[cs[i].name];
      byRank := byRank[r := BucketOf(byRank, r) + [cs[i]]];
    }
    assert cs[..|cs|] == cs;
  }

  ghost predicate IsMax(max: int, keys: set<int>) {
    max >= 0 && (max == 0 || max in keys) && forall r :: r in keys ==> r <= max
  }

  method MaxRank(byRank: map<int, seq<Component>>) returns (max: int)
    ensures IsMax(max, byRank.Keys)
  {
    max := 0;
    var rest := byRank.Keys;
    while rest != {}
      invariant rest <= byRank.Keys && IsMax(max, byRank.Keys - rest)
      decreases rest
    {
      assert (forall r :: r !in rest) ==> rest == {};
      var r :| r in rest;
      assert byRank.Keys - (rest - {r}) == (byRank.Keys - rest) + {r};
      rest := rest - {r};
      if r > max {
        max := r;
      }
    }
    assert byRank.Keys - rest == byRank.Keys;
  }

  ghost predicate Columns(cs: seq<Component>, rank: map<string, int>, byRank: map<int, seq<Component>>) {
    forall r :: BucketOf(byRank, r) == Column(cs, rank, r)
  }

  /** Sorts every bucket by name. */
  method SortBuckets(buckets: map<int, seq<Component>>, ghost cs: seq<Component>, ghost rank: map<string, int>)
    returns (byRank: map<int, seq<Component>>)
    requires Buckets(cs, rank, buckets)
    ensures Columns(cs, rank, byRank) && byRank.Keys == buckets.Keys
  {
    byRank := buckets;
    var rest := byRank.Keys;
    while rest != {}
      invariant byRank.Keys == buckets.Keys && rest <= byRank.Keys
      invariant forall r :: r in byRank ==> byRank[r] == if r in rest then Bucket(cs, rank, r) else Column(cs, rank, r)
      decreases rest
    {
      assert (forall r :: r !in rest) ==> rest == {};
      var r :| r in rest;
      byRank := byRank[r := StableSort(ByName(), byRank[r])];
      rest := rest - {r};
    }
    forall r
      ensures BucketOf(byRank, r) == Column(cs, rank, r)
    {
      assert r in byRank <==> r in buckets;
    }
  }

  function Widths(cs: seq<Component>, rank: map<string, int>): int -> nat {
    (r: int) => |Column(cs, rank, r)|
  }

  /** `max` is the greatest of the first `n` column widths. */
  ghost predicate WidestOf(width: int -> nat, n: int, max: int) {
    && max >= 0 && (forall r :: 0 <= r < n ==> width(r) <= max)
    && (max == 0 || exists r :: 0 <= r < n && width(r) == max)
  }

  lemma WidestNext(width: int -> nat, r: nat, max: int, next: int)
    requires WidestOf(width, r, max) && next == if width(r) > max then width(r) else max
    ensures WidestOf(width, r + 1, next)
  {
  }

  method PlaceColumn(cs: seq<Component>, rank: map<string, int>, dir: Direction, pos0: map<string, Box>, r: int,
                     col: seq<Component>)
    returns (pos: map<string, Box>)
    requires col == Column(cs, rank, r) && AllStand(cs, rank, dir, pos0) && PlacedUpTo(cs, rank, pos0, r, 0)
    ensures AllStand(cs, rank, dir, pos) && PlacedUpTo(cs, rank, pos, r + 1, 0)
  {
    pos := pos0;
    for i := 0 to |col|
      invariant AllStand(cs, rank, dir, pos) && PlacedUpTo(cs, rank, pos, r, i)
    {
      PlaceNext(cs, rank, dir, pos, r, i);
      pos := pos[col[i].name := BoxAt(col[i], r, i, dir)];
    }
    RankDone(cs, rank, pos, r);
  }

  method PlaceBoxes(cs: seq<Component>, rank: map<string, int>, dir: Direction, byRank: map<int, seq<Component>>,
                    maxRank: int)
    returns (pos: map<string, Box>, maxCols: int)
    requires Columns(cs, rank, byRank) && maxRank >= 0 && KnownRanks(cs, rank)
    ensures AllStand(cs, rank, dir, pos) && PlacedUpTo(cs, rank, pos, maxRank + 1, 0)
    ensures WidestOf(Widths(cs, rank), maxRank + 1, maxCols)
  {
    pos, maxCols := map[], 0;
    for r := 0 to maxRank + 1
      invariant AllStand(cs, rank, dir, pos) && PlacedUpTo(cs, rank, pos, r, 0)
      invariant WidestOf(Widths(cs, rank), r, maxCols)
    {
      var col := BucketOf(byRank, r);
      WidestNext(Widths(cs, rank), r, maxCols, if |col| > maxCols then |col| else maxCols);
      if |col| > maxCols {
        maxCols := |col|;
      }
      pos := PlaceColumn(cs, rank, dir, pos, r, col);
    }
  }

  // ---------------------------------------------------------------- edges

  function UnmatchedEdges(errors: seq<PairingError>): set<(string, string)> {
    if errors == [] then {}
    else UnmatchedEdges(errors[..|errors| - 1]) + {(errors[|errors| - 1].ref.component, errors[|errors| - 1].component)}
  }

  ghost predicate PairFault(errors: seq<PairingError>, from: string, to: string) {
    exists k :: 0 <= k < |errors| && errors[k].ref.component == from && errors[k].component == to
  }

  lemma {:induction false} UnmatchedHas(errors: seq<PairingError>, from: string, to: string)
    ensures (from, to) in UnmatchedEdges(errors) <==> PairFault(errors, from, to)
  {
    if errors != [] {
      var init, last := errors[..|errors| - 1], errors[|errors| - 1];
      UnmatchedHas(init, from, to);
      assert forall k :: 0 <= k < |init| ==> init[k] == errors[k];
      assert last == errors[|init|];
    }
  }

  function RoutePath(src: Box, dst: Box, dir: Direction): Route {
    if dir == LeftRight then
      Route(src.x + src.w, src.y + src.h / 2, dst.x, dst.y + dst.h / 2, (src.x + src.w + dst.x) / 2)
    else
      Route(src.x + src.w / 2, src.y + src.h, dst.x + dst.w / 2, dst.y, (src.y + src.h + dst.y) / 2)
  }

  function EdgeFor(name: string, ref: Ref, pos: map<string, Box>, bad: set<(string, string)>,
                   dir: Direction): seq<EdgePath> {
    if name in pos && ref.component in pos then
      [EdgePath(ref.component, name, RoutePath(pos[ref.component], pos[name], dir), (ref.component, name) !in bad)]
    else
      []
  }

  function EdgesInto(name: string, refs: seq<Ref>, pos: map<string, Box>, bad: set<(string, string)>,
                     dir: Direction): seq<EdgePath> {
    if refs == [] then []
    else EdgesInto(name, refs[..|refs| - 1], pos, bad, dir) + EdgeFor(name, refs[|refs| - 1], pos, bad, dir)
  }

  function AllEdges(cs: seq<Component>, pos: map<string, Box>, bad: set<(string, string)>,
                    dir: Direction): seq<EdgePath> {
    if cs == [] then []
    else AllEdges(cs[..|cs| - 1], pos, bad, dir) + EdgesInto(cs[|cs| - 1].name, cs[|cs| - 1].refs, pos, bad, dir)
  }

  lemma EdgesIntoNext(name: string, refs: seq<Ref>, pos: map<string, Box>, bad: set<(string, string)>,
                      dir: Direction, j: nat)
    requires j < |refs|
    ensures EdgesInto(name, refs[..j + 1], pos, bad, dir) ==
            EdgesInto(name, refs[..j], pos, bad, dir) + EdgeFor(name, refs[j], pos, bad, dir)
  {
    assert refs[..j + 1][..j] == refs[..j];
  }

  method BuildEdgesInto(name: string, refs: seq<Ref>, pos: map<string, Box>, bad: set<(string, string)>,
                        dir: Direction, edges0: seq<EdgePath>)
    returns (edges: seq<EdgePath>)
    requires name in pos
    ensures edges == edges0 + EdgesInto(name, refs, pos, bad, dir)
  {
    edges := edges0;
    for j := 0 to |refs|
      invariant edges == edges0 + EdgesInto(name, refs[..j], pos, bad, dir)
    {
      EdgesIntoNext(name, refs, pos, bad, dir, j);
      var from := refs[j].component;
      if from !in pos {
        continue;
      }
      edges := edges + [EdgePath(from, name, RoutePath(pos[from], pos[name], dir), (from, name) !in bad)];
    }
    assert refs[..|refs|] == refs;
  }

  lemma AllEdgesNext(cs: seq<Component>, pos: map<string, Box>, bad: set<(string, string)>, dir: Direction, i: nat)
    requires i < |cs|
    ensures AllEdges(cs[..i + 1], pos, bad, dir) ==
            AllEdges(cs[..i], pos, bad, dir) + EdgesInto(cs[i].name, cs[i].refs, pos, bad, dir)
  {
    assert cs[..i + 1][..i] == cs[..i];
  }

  method BuildEdges(cs: seq<Component>, pos: map<string, Box>, bad: set<(string, string)>,
                    dir: Direction) returns (edges: seq<EdgePath>)
    ensures edges == AllEdges(cs, pos, bad, dir)
  {
    edges := [];
    for i := 0 to |cs|
      invariant edges == AllEdges(cs[..i], pos, bad, dir)
    {
      AllEdgesNext(cs, pos, bad, dir, i);
      if cs[i].name !in pos {
        NoEdgesInto(cs[i].name, cs[i].refs, pos, bad, dir);
        continue;
      }
      edges := BuildEdgesInto(cs[i].name, cs[i].refs, pos, bad, dir, edges);
    }
    assert cs[..|cs|] == cs;
  }

  lemma {:induction false} NoEdgesInto(name: string, refs: seq<Ref>, pos: map<string, Box>, bad: set<(string, string)>,
                                       dir: Direction)
    requires name !in pos
    ensures EdgesInto(name, refs, pos, bad, dir) == []
  {
    if refs != [] {
      NoEdgesInto(name, refs[..|refs| - 1], pos, bad, dir);
    }
  }

  lemma {:induction false} EdgesIntoHas(name: string, refs: seq<Ref>, pos: map<string, Box>,
                                        bad: set<(string, string)>, dir: Direction, e: EdgePath)
    ensures e in EdgesInto(name, refs, pos, bad, dir) <==> exists r :: r in refs && e in EdgeFor(name, r, pos, bad, dir)
  {
    if refs != [] {
      var init, last := refs[..|refs| - 1], refs[|refs| - 1];
      EdgesIntoHas(name, init, pos, bad, dir, e);
      assert refs == init + [last];
      assert forall r :: r in refs <==> r in init || r == last;
    }
  }

  lemma {:induction false} AllEdgesHas(cs: seq<Component>, pos: map<string, Box>, bad: set<(string, string)>,
                                       dir: Direction, e: EdgePath)
    ensures e in AllEdges(cs, pos, bad, dir) <==> exists c :: c in cs && e in EdgesInto(c.name, c.refs, pos, bad, dir)
  {
    if cs != [] {
      var init, last := cs[..|cs| - 1], cs[|cs| - 1];
      AllEdgesHas(init, pos, bad, dir, e);
      assert cs == init + [last];
      assert forall c :: c in cs <==> c in init || c == last;
    }
  }

  // ---------------------------------------------------------------- the layout

  /** What `Layout` has worked out before it builds its output. */
  datatype Placement = Placement(rank: map<string, int>, pos: map<string, Box>, maxRank: int, maxCols: int)

  ghost predicate Positions(cs: seq<Component>, dir: Direction, at: Placement) {
    && UniqueNames(cs) && IsRanking(GraphOf(cs), at.rank)
    && AllStand(cs, at.rank, dir, at.pos) && (forall n :: n in at.pos <==> n in Names(cs))
    && RanksTo(at.rank, at.maxRank)
    && WidestOf(Widths(cs, at.rank), at.maxRank + 1, at.maxCols)
  }

  ghost predicate RanksTo(rank: map<string, int>, maxRank: int) {
    && maxRank >= 0 && (forall n :: n in rank ==> 0 <= rank[n] <= maxRank)
    && (maxRank == 0 || exists n :: n in rank && rank[n] == maxRank)
  }

  function Boxes(pos: map<string, Box>, names: seq<string>): (r: seq<Box>)
    requires forall n :: n in names ==> n in pos
    ensures |r| == |names| && forall i :: 0 <= i < |r| ==> r[i] == pos[names[i]]
  {
    seq(|names|, i requires 0 <= i < |names| => pos[names[i]])
  }

  function Extent(dir: Direction, maxRank: int, maxCols: int): (int, int) {
    if dir == LeftRight then
      (MARGIN_X * 2 + (maxRank + 1) * (NODE_W + GAP_X) - GAP_X, MARGIN_Y * 2 + maxCols * (NODE_H + GAP_Y) - GAP_Y)
    else
      (MARGIN_X * 2 + maxCols * (NODE_W + GAP_X) - GAP_X, MARGIN_Y * 2 + (maxRank + 1) * (NODE_H + GAP_Y) - GAP_Y)
  }

  lemma NamesRanked(cs: seq<Component>, rank: map<string, int>)
    requires UniqueNames(cs) && IsRanking(GraphOf(cs), rank)
    ensures KnownRanks(cs, rank) && forall n :: n in rank <==> n in Names(cs)
  {
    var names, g := Names(cs), GraphOf(cs);
    forall c | c in cs
      ensures c.name in rank && rank[c.name] >= 0
    {
      var i :| 0 <= i < |cs| && cs[i] == c;
      assert names[i] in names && names[i] in g;
      assert RankedAt(g, rank, c.name);
    }
  }

  lemma PlacedAll(cs: seq<Component>, rank: map<string, int>, dir: Direction, pos: map<string, Box>, maxRank: int)
    requires UniqueNames(cs) && IsRanking(GraphOf(cs), rank)
    requires AllStand(cs, rank, dir, pos) && PlacedUpTo(cs, rank, pos, maxRank + 1, 0)
    requires forall c :: c in cs ==> c.name in rank && rank[c.name] <= maxRank
    ensures forall n :: n in pos <==> n in Names(cs)
  {
    NamesRanked(cs, rank);
    forall n
      ensures n in pos <==> n in Names(cs)
    {
      if n in pos {
        assert Stands(cs, rank, dir, pos[n], n);
      }
      if n in Names(cs) {
        var i :| 0 <= i < |cs| && Names(cs)[i] == n;
        assert cs[i] in cs;
      }
    }
  }

  method Place(cs: seq<Component>, rank: map<string, int>, dir: Direction) returns (at: Placement)
    requires UniqueNames(cs) && IsRanking(GraphOf(cs), rank)
    ensures at.rank == rank && Positions(cs, dir, at)
  {
    NamesRanked(cs, rank);
    var buckets := FillBuckets(cs, rank);
    var maxRank := MaxRank(buckets);
    RanksUpToMax(cs, rank, buckets, maxRank);
    var byRank := SortBuckets(buckets, cs, rank);
    var pos, maxCols := PlaceBoxes(cs, rank, dir, byRank, maxRank);
    PlacedAll(cs, rank, dir, pos, maxRank);
    at := Placement(rank, pos, maxRank, maxCols);
  }

  lemma RanksUpToMax(cs: seq<Component>, rank: map<string, int>, byRank: map<int, seq<Component>>, maxRank: int)
    requires UniqueNames(cs) && IsRanking(GraphOf(cs), rank) && Buckets(cs, rank, byRank) && IsMax(maxRank, byRank.Keys)
    requires RankKeys(cs, rank, byRank)
    ensures forall c :: c in cs ==> c.name in rank && rank[c.name] <= maxRank
    ensures RanksTo(rank, maxRank)
  {
    NamesRanked(cs, rank);
    forall n | n in rank
      ensures 0 <= rank[n] <= maxRank
    {
      var i :| 0 <= i < |cs| && Names(cs)[i] == n;
      assert cs[i] in cs;
    }
    if maxRank != 0 {
      var c := byRank[maxRank][0];
      assert c in byRank[maxRank];
      BucketHas(cs, rank, maxRank, c);
    }
  }

  method Layout(cs: seq<Component>, asked: string, errors: seq<PairingError>)
    returns (r: Result<Output, OrderError>, ghost at: Placement)
    ensures r.Ok? <==> UniqueNames(cs) && !Cyclic(GraphOf(cs))
    ensures r.Err? ==> r.error == if UniqueNames(cs) then CycleDetected else DuplicateComponent
    ensures r.Ok? ==> r.value.direction == if asked == "lr" then LeftRight else TopDown
    ensures r.Ok? ==> (r.value.hasErrors <==> cs != [] && errors != [])
    ensures r.Ok? && cs == [] ==> r.value == Output(0, 0, DirectionOrDefault(asked), [], [], false)
    ensures r.Ok? && cs != [] ==> LaidOut(cs, DirectionOrDefault(asked), errors, at, r.value)
  {
    var dir := DirectionOrDefault(asked);
    at := Placement(map[], map[], 0, 0);
    if |cs| == 0 {
      EmptyIsAcyclic(cs);
      return Ok(Output(0, 0, dir, [], [], false)), at;
    }
    var ranks := AssignRanks(cs);
    if ranks.Err? {
      return Err(ranks.error), at;
    }
    var placed := Place(cs, ranks.value, dir);
    NamesPlaced(cs, dir, placed);
    var nodes := Boxes(placed.pos, SortNames(Names(cs)));
    var edges := BuildEdges(cs, placed.pos, UnmatchedEdges(errors), dir);
    var extent := Extent(dir, placed.maxRank, placed.maxCols);
    return Ok(Output(extent.0, extent.1, dir, nodes, edges, |errors| > 0)), placed;
  }

  lemma EmptyIsAcyclic(cs: seq<Component>)
    requires cs == []
    ensures UniqueNames(cs) && !Cyclic(GraphOf(cs))
  {
    DecreasingIsAcyclic(GraphOf(cs), map[]);
  }

  lemma NamesPlaced(cs: seq<Component>, dir: Direction, at: Placement)
    requires Positions(cs, dir, at)
    ensures forall n :: n in SortNames(Names(cs)) <==> n in at.pos
  {
    SameElements(SortNames(Names(cs)), Names(cs));
  }

  ghost predicate LaidOut(cs: seq<Component>, dir: Direction, errors: seq<PairingError>, at: Placement, out: Output) {
    && Positions(cs, dir, at)
    && (forall n :: n in SortNames(Names(cs)) <==> n in at.pos)
    && out.nodes == Boxes(at.pos, SortNames(Names(cs)))
    && out.edges == AllEdges(cs, at.pos, UnmatchedEdges(errors), dir)
    && (out.width, out.height) == Extent(dir, at.maxRank, at.maxCols)
    && out.direction == dir && out.hasErrors == (|errors| > 0)
  }

  // ---------------------------------------------------------------- laws

  /** Two boxes keep the horizontal or the vertical gap. */
  predicate Apart(a: Box, b: Box) {
    || a.x + a.w + GAP_X <= b.x || b.x + b.w + GAP_X <= a.x
    || a.y + a.h + GAP_Y <= b.y || b.y + b.h + GAP_Y <= a.y
  }

  lemma CellsApart(c: Component, d: Component, r: int, q: int, i: int, j: int, dir: Direction)
    requires r != q || i != j
    ensures Apart(BoxAt(c, r, i, dir), BoxAt(d, q, j, dir))
  {
  }

  lemma StandApart(cs: seq<Component>, rank: map<string, int>, dir: Direction, a: Box, b: Box, m: string, n: string)
    requires Stands(cs, rank, dir, a, m) && Stands(cs, rank, dir, b, n) && m != n
    ensures Apart(a, b)
  {
    var i :| StandsAt(cs, rank, dir, a, m, i);
    var j :| StandsAt(cs, rank, dir, b, n, j);
    CellsApart(Column(cs, rank, rank[m])[i], Column(cs, rank, rank[n])[j], rank[m], rank[n], i, j, dir);
  }

  lemma NodeStands(cs: seq<Component>, dir: Direction, errors: seq<PairingError>, at: Placement, out: Output, i: nat)
    requires LaidOut(cs, dir, errors, at, out) && i < |out.nodes|
    ensures Stands(cs, at.rank, dir, out.nodes[i], SortNames(Names(cs))[i])
    ensures out.nodes[i].name == SortNames(Names(cs))[i]
  {
    var name := SortNames(Names(cs))[i];
    assert name in SortNames(Names(cs));
    assert Stands(cs, at.rank, dir, at.pos[name], name);
  }

  /** One box per component, sorted by name, and no two closer than a gap. */
  lemma BoxesApart(cs: seq<Component>, dir: Direction, errors: seq<PairingError>, at: Placement, out: Output, i: nat,
                   j: nat)
    requires LaidOut(cs, dir, errors, at, out) && i < |out.nodes| && j < |out.nodes| && i != j
    ensures |out.nodes| == |cs| && out.nodes[i].name == SortNames(Names(cs))[i]
    ensures Apart(out.nodes[i], out.nodes[j])
  {
    var names := SortNames(Names(cs));
    SameElements(names, Names(cs));
    PermutationDistinct(Names(cs), names);
    NodeStands(cs, dir, errors, at, out, i);
    NodeStands(cs, dir, errors, at, out, j);
    StandApart(cs, at.rank, dir, out.nodes[i], out.nodes[j], names[i], names[j]);
  }

  /** The box keeps the margin on all four sides. */
  predicate Inside(b: Box, out: Output) {
    && MARGIN_X <= b.x && b.x + b.w + MARGIN_X <= out.width
    && MARGIN_Y <= b.y && b.y + b.h + MARGIN_Y <= out.height
  }

  lemma CellInside(c: Component, r: int, i: int, dir: Direction, maxRank: int, maxCols: int, out: Output)
    requires 0 <= r <= maxRank && 0 <= i < maxCols
    requires (out.width, out.height) == Extent(dir, maxRank, maxCols)
    ensures Inside(BoxAt(c, r, i, dir), out)
  {
  }

  lemma BoxesInside(cs: seq<Component>, dir: Direction, errors: seq<PairingError>, at: Placement, out: Output, k: nat)
    requires LaidOut(cs, dir, errors, at, out) && k < |out.nodes|
    ensures Inside(out.nodes[k], out)
  {
    NodeStands(cs, dir, errors, at, out, k);
    StandInside(cs, dir, at, out.nodes[k], SortNames(Names(cs))[k], out);
  }

  lemma WithinGrid(cs: seq<Component>, at: Placement, name: string, i: int)
    requires RanksTo(at.rank, at.maxRank) && WidestOf(Widths(cs, at.rank), at.maxRank + 1, at.maxCols)
    requires name in at.rank && i < |Column(cs, at.rank, at.rank[name])|
    ensures 0 <= at.rank[name] <= at.maxRank && i < at.maxCols
  {
    assert Widths(cs, at.rank)(at.rank[name]) <= at.maxCols;
  }

  lemma StandInside(cs: seq<Component>, dir: Direction, at: Placement, box: Box, name: string, out: Output)
    requires Positions(cs, dir, at) && Stands(cs, at.rank, dir, box, name)
    requires (out.width, out.height) == Extent(dir, at.maxRank, at.maxCols)
    ensures Inside(box, out)
  {
    var i :| StandsAt(cs, at.rank, dir, box, name, i);
    WithinGrid(cs, at, name, i);
    CellInside(Column(cs, at.rank, at.rank[name])[i], at.rank[name], i, dir, at.maxRank, at.maxCols, out);
  }

  /** Along the rank axis the source ends at least a gap before the destination begins. The
      path leaves the middle of the side on which the source ends, enters the middle of the
      side on which the destination begins, and bends halfway between. */
  predicate Flows(dir: Direction, src: Box, dst: Box, route: Route) {
    if dir == LeftRight then
      && src.x + src.w + GAP_X <= dst.x
      && route.x1 == src.x + src.w && 2 * (route.y1 - src.y) == src.h
      && route.x2 == dst.x && 2 * (route.y2 - dst.y) == dst.h
      && route.x1 < route.mid < route.x2 && 0 <= route.x1 + route.x2 - 2 * route.mid <= 1
    else
      && src.y + src.h + GAP_Y <= dst.y
      && 2 * (route.x1 - src.x) == src.w && route.y1 == src.y + src.h
      && 2 * (route.x2 - dst.x) == dst.w && route.y2 == dst.y
      && route.y1 < route.mid < route.y2 && 0 <= route.y1 + route.y2 - 2 * route.mid <= 1
  }

  lemma RanksFlow(c: Component, d: Component, r: int, q: int, i: int, j: int, dir: Direction)
    requires r < q
    ensures Flows(dir, BoxAt(c, r, i, dir), BoxAt(d, q, j, dir),
                  RoutePath(BoxAt(c, r, i, dir), BoxAt(d, q, j, dir), dir))
  {
  }

  lemma StandFlow(cs: seq<Component>, rank: map<string, int>, dir: Direction, a: Box, b: Box, m: string, n: string)
    requires Stands(cs, rank, dir, a, m) && Stands(cs, rank, dir, b, n) && m in rank && n in rank && rank[m] < rank[n]
    ensures Flows(dir, a, b, RoutePath(a, b, dir))
  {
    var i :| StandsAt(cs, rank, dir, a, m, i);
    var j :| StandsAt(cs, rank, dir, b, n, j);
    RanksFlow(Column(cs, rank, rank[m])[i], Column(cs, rank, rank[n])[j], rank[m], rank[n], i, j, dir);
  }

  lemma KnownRefIsEdge(cs: seq<Component>, c: Component, ref: Ref)
    requires UniqueNames(cs) && c in cs && ref in c.refs && ref.component in Names(cs)
    ensures Edge(GraphOf(cs), c.name, ref.component)
  {
    var i :| 0 <= i < |cs| && cs[i] == c;
    IndexAt(cs, i);
    var j :| 0 <= j < |c.refs| && c.refs[j] == ref;
    assert RefNames(c.refs)[j] == ref.component;
  }

  lemma EdgeFlows(cs: seq<Component>, dir: Direction, at: Placement, c: Component, ref: Ref)
    requires Positions(cs, dir, at) && c in cs && ref in c.refs && ref.component in at.pos
    ensures c.name in at.pos
    ensures Flows(dir, at.pos[ref.component], at.pos[c.name], RoutePath(at.pos[ref.component], at.pos[c.name], dir))
  {
    KnownRefIsEdge(cs, c, ref);
    assert RankedAt(GraphOf(cs), at.rank, c.name);
    assert c.name in at.pos by {
      var i :| 0 <= i < |cs| && cs[i] == c;
      assert Names(cs)[i] == c.name;
    }
    StandFlow(cs, at.rank, dir, at.pos[ref.component], at.pos[c.name], ref.component, c.name);
  }

  lemma NodeOf(cs: seq<Component>, dir: Direction, errors: seq<PairingError>, at: Placement, out: Output, name: string)
    requires LaidOut(cs, dir, errors, at, out) && name in at.pos
    ensures at.pos[name] in out.nodes && at.pos[name].name == name
  {
    var names := SortNames(Names(cs));
    assert name in names;
    var i :| 0 <= i < |names| && names[i] == name;
    NodeStands(cs, dir, errors, at, out, i);
  }

  /** The edge `e` was drawn for `ref` of `c`. */
  ghost predicate DrawnFor(pos: map<string, Box>, errors: seq<PairingError>, dir: Direction, e: EdgePath, c: Component,
                           ref: Ref) {
    ref in c.refs && e in EdgeFor(c.name, ref, pos, UnmatchedEdges(errors), dir)
  }

  lemma EdgeOrigin(cs: seq<Component>, dir: Direction, errors: seq<PairingError>, pos: map<string, Box>, e: EdgePath)
    returns (c: Component, ref: Ref)
    requires e in AllEdges(cs, pos, UnmatchedEdges(errors), dir)
    ensures c in cs && DrawnFor(pos, errors, dir, e, c, ref)
  {
    var bad := UnmatchedEdges(errors);
    AllEdgesHas(cs, pos, bad, dir, e);
    c :| c in cs && e in EdgesInto(c.name, c.refs, pos, bad, dir);
    EdgesIntoHas(c.name, c.refs, pos, bad, dir, e);
    ref :| ref in c.refs && e in EdgeFor(c.name, ref, pos, bad, dir);
  }

  /** Every edge drawn is a known reference, runs along the rank axis from the box of the
      component referred to into that of its dependent, and is marked unmatched exactly when a
      pairing error names it. */
  lemma EdgesFlow(cs: seq<Component>, dir: Direction, errors: seq<PairingError>, at: Placement, out: Output,
                  e: EdgePath)
    returns (src: Box, dst: Box)
    requires LaidOut(cs, dir, errors, at, out) && e in out.edges
    ensures Edge(GraphOf(cs), e.to, e.from)
    ensures src in out.nodes && src.name == e.from && dst in out.nodes && dst.name == e.to
    ensures Flows(dir, src, dst, e.route)
    ensures e.matched <==> !PairFault(errors, e.from, e.to)
  {
    EdgeDrawn(cs, dir, errors, at, e);
    src, dst := at.pos[e.from], at.pos[e.to];
    NodeOf(cs, dir, errors, at, out, e.from);
    NodeOf(cs, dir, errors, at, out, e.to);
  }

  lemma EdgeDrawn(cs: seq<Component>, dir: Direction, errors: seq<PairingError>, at: Placement, e: EdgePath)
    requires Positions(cs, dir, at) && e in AllEdges(cs, at.pos, UnmatchedEdges(errors), dir)
    ensures Edge(GraphOf(cs), e.to, e.from) && e.from in at.pos && e.to in at.pos
    ensures Flows(dir, at.pos[e.from], at.pos[e.to], e.route)
    ensures e.matched <==> !PairFault(errors, e.from, e.to)
  {
    var c, ref := EdgeOrigin(cs, dir, errors, at.pos, e);
    KnownRefIsEdge(cs, c, ref);
    EdgeFlows(cs, dir, at, c, ref);
    UnmatchedHas(errors, e.from, e.to);
  }

  /** Every known reference is drawn. */
  lemma ReferencesDrawn(cs: seq<Component>, dir: Direction, errors: seq<PairingError>, at: Placement, out: Output,
                        c: Component, ref: Ref)
    returns (e: EdgePath)
    requires LaidOut(cs, dir, errors, at, out) && c in cs && ref in c.refs && ref.component in Names(cs)
    ensures e in out.edges && e.from == ref.component && e.to == c.name
  {
    var bad := UnmatchedEdges(errors);
    EdgeFlows(cs, dir, at, c, ref);
    e := EdgePath(ref.component, c.name, RoutePath(at.pos[ref.component], at.pos[c.name], dir),
                  (ref.component, c.name) !in bad);
    assert e in EdgeFor(c.name, ref, at.pos, bad, dir);
    EdgesIntoHas(c.name, c.refs, at.pos, bad, dir, e);
    AllEdgesHas(cs, at.pos, bad, dir, e);
  }

  // ---------------------------------------------------------------- exact places

  /** The names of the same rank that come before `name`. */
  ghost function Smaller(cs: seq<Component>, rank: map<string, int>, name: string): set<string> {
    set c | c in cs && SameRank(rank, c.name, name) && ComesFirst(c.name, name) :: c.name
  }

  predicate SameRank(rank: map<string, int>, m: string, n: string) {
    m in rank && n in rank && rank[m] == rank[n]
  }

  lemma DistinctSize(s: seq<string>, t: set<string>)
    requires Distinct(s) && forall x :: x in s <==> x in t
    ensures |t| == |s|
  {
    DistinctWithin(s, t);
    assert t == set x | x in s;
    SeqSetSize(s, t);
  }

  lemma PrefixIsSmaller(names: seq<string>, i: nat, n: string)
    requires Ascending(names) && Distinct(names) && i < |names|
    ensures n in names[..i] <==> n in names && ComesFirst(n, names[i])
  {
    ComesFirstOneWay(n, names[i]);
    if n in names {
      var k :| 0 <= k < |names| && names[k] == n;
      assert k < i ==> names[..i][k] == n;
    }
  }

  /** In its column a component has as many before it as there are smaller names of its rank. */
  lemma PlaceCountsSmaller(cs: seq<Component>, rank: map<string, int>, name: string, i: nat)
    requires UniqueNames(cs) && name in rank && i < |Column(cs, rank, rank[name])|
    requires Column(cs, rank, rank[name])[i].name == name
    ensures |Smaller(cs, rank, name)| == i
  {
    var names := Names(Column(cs, rank, rank[name]));
    ColumnDistinct(cs, rank, rank[name]);
    ColumnSorted(cs, rank, rank[name]);
    SortedIsAscending(names);
    forall n
      ensures n in names[..i] <==> n in Smaller(cs, rank, name)
    {
      PrefixIsSmaller(names, i, n);
      ColumnNames(cs, rank, rank[name], n);
    }
    DistinctSize(names[..i], Smaller(cs, rank, name));
  }

  /** The whole arrangement in numbers: boxes of 140 by 56 on a grid of 172 by 120 that begins
      at (24, 24), where a box's place along one axis is its component's rank and along the
      other the number of components of that rank with smaller names. */
  lemma BoxesStandAt(cs: seq<Component>, dir: Direction, errors: seq<PairingError>, at: Placement, out: Output, k: nat)
    requires LaidOut(cs, dir, errors, at, out) && k < |out.nodes|
    ensures out.nodes[k].name in at.rank
    ensures var box := out.nodes[k];
            var r, i := at.rank[box.name], |Smaller(cs, at.rank, box.name)|;
            && box.w == 140 && box.h == 56
            && box.x == 24 + 172 * (if dir == LeftRight then r else i)
            && box.y == 24 + 120 * (if dir == LeftRight then i else r)
            && exists c :: c in cs && c.name == box.name && c.kind == box.kind
  {
    NodeStands(cs, dir, errors, at, out, k);
    var name := out.nodes[k].name;
    var i :| StandsAt(cs, at.rank, dir, out.nodes[k], name, i);
    PlaceCountsSmaller(cs, at.rank, name, i);
    ColumnHas(cs, at.rank, at.rank[name], Column(cs, at.rank, at.rank[name])[i]);
  }

  /** Some box lies in the last row of the grid, and some box in its last column. */
  lemma SomeLast(cs: seq<Component>, at: Placement) returns (m: string, n: string, i: int)
    requires cs != [] && UniqueNames(cs) && IsRanking(GraphOf(cs), at.rank)
    requires RanksTo(at.rank, at.maxRank) && WidestOf(Widths(cs, at.rank), at.maxRank + 1, at.maxCols)
    ensures m in at.rank && at.rank[m] == at.maxRank && m in Names(cs)
    ensures n in at.rank && n in Names(cs) && at.maxCols >= 1 && i == at.maxCols - 1
    ensures i < |Column(cs, at.rank, at.rank[n])| && Column(cs, at.rank, at.rank[n])[i].name == n
  {
    NamesRanked(cs, at.rank);
    assert Names(cs)[0] in Names(cs);
    m := Names(cs)[0];
    if at.maxRank > 0 {
      m :| m in at.rank && at.rank[m] == at.maxRank;
    }
    ColumnHas(cs, at.rank, at.rank[cs[0].name], cs[0]);
    assert Widths(cs, at.rank)(at.rank[cs[0].name]) >= 1;
    i := at.maxCols - 1;
    var r :| 0 <= r < at.maxRank + 1 && Widths(cs, at.rank)(r) == at.maxCols;
    var c := Column(cs, at.rank, r)[i];
    ColumnHas(cs, at.rank, r, c);
    n := c.name;
  }

  lemma CellTouches(c: Component, r: int, i: int, dir: Direction, maxRank: int, maxCols: int, out: Output)
    requires (out.width, out.height) == Extent(dir, maxRank, maxCols)
    ensures r == maxRank ==> Touches(BoxAt(c, r, i, dir), out, dir == LeftRight)
    ensures i == maxCols - 1 ==> Touches(BoxAt(c, r, i, dir), out, dir != LeftRight)
  {
  }

  /** The box is only the margin away from the right side, or from the lower one. */
  predicate Touches(b: Box, out: Output, right: bool) {
    if right then b.x + b.w + 24 == out.width else b.y + b.h + 24 == out.height
  }

  lemma LastRankTouches(cs: seq<Component>, dir: Direction, at: Placement, m: string, out: Output)
    requires m in at.rank && at.rank[m] == at.maxRank && m in at.pos && Stands(cs, at.rank, dir, at.pos[m], m)
    requires (out.width, out.height) == Extent(dir, at.maxRank, at.maxCols)
    ensures Touches(at.pos[m], out, dir == LeftRight)
  {
    var j :| StandsAt(cs, at.rank, dir, at.pos[m], m, j);
    CellTouches(Column(cs, at.rank, at.rank[m])[j], at.rank[m], j, dir, at.maxRank, at.maxCols, out);
  }

  lemma LastPlaceTouches(cs: seq<Component>, dir: Direction, at: Placement, n: string, i: int, out: Output)
    requires UniqueNames(cs) && n in at.rank && n in at.pos && Stands(cs, at.rank, dir, at.pos[n], n)
    requires 0 <= i == at.maxCols - 1 && i < |Column(cs, at.rank, at.rank[n])|
    requires Column(cs, at.rank, at.rank[n])[i].name == n
    requires (out.width, out.height) == Extent(dir, at.maxRank, at.maxCols)
    ensures Touches(at.pos[n], out, dir != LeftRight)
  {
    var l :| StandsAt(cs, at.rank, dir, at.pos[n], n, l);
    ColumnDistinct(cs, at.rank, at.rank[n]);
    SameSlot(Column(cs, at.rank, at.rank[n]), i, l);
    CellTouches(Column(cs, at.rank, at.rank[n])[l], at.rank[n], l, dir, at.maxRank, at.maxCols, out);
  }

  /** Width and height are no greater than the boxes and the margins need. */
  lemma ExtentIsTight(cs: seq<Component>, dir: Direction, errors: seq<PairingError>, at: Placement, out: Output)
    returns (a: Box, b: Box)
    requires LaidOut(cs, dir, errors, at, out) && cs != []
    ensures a in out.nodes && a.x + a.w + 24 == out.width
    ensures b in out.nodes && b.y + b.h + 24 == out.height
  {
    var m, n, i := SomeLast(cs, at);
    NodeOf(cs, dir, errors, at, out, m);
    NodeOf(cs, dir, errors, at, out, n);
    assert Stands(cs, at.rank, dir, at.pos[m], m) && Stands(cs, at.rank, dir, at.pos[n], n);
    LastRankTouches(cs, dir, at, m, out);
    LastPlaceTouches(cs, dir, at, n, i, out);
    a, b := at.pos[m], at.pos[n];
    if dir != LeftRight {
      a, b := b, a;
    }
  }

  // ---------------------------------------------------------------- edges, counted

  function EndsOf(e: EdgePath): (string, string) {
    (e.from, e.to)
  }

  /** The ends of the edges, in order. */
  function Ends(edges: seq<EdgePath>): (r: seq<(string, string)>)
    ensures |r| == |edges| && forall i :: 0 <= i < |r| ==> r[i] == EndsOf(edges[i])
  {
    seq(|edges|, i requires 0 <= i < |edges| => EndsOf(edges[i]))
  }

  /** The ends of the references that have both ends in `known`, component by component and
      reference by reference in the order of declaration. */
  function KnownRefsOf(c: Component, refs: seq<Ref>, known: set<string>): seq<(string, string)> {
    if refs == [] then []
    else (if c.name in known && refs[0].component in known then [(refs[0].component, c.name)] else [])
         + KnownRefsOf(c, refs[1..], known)
  }

  function AllKnownRefs(cs: seq<Component>, known: set<string>): seq<(string, string)> {
    if cs == [] then [] else KnownRefsOf(cs[0], cs[0].refs, known) + AllKnownRefs(cs[1..], known)
  }

  lemma EndsConcat(a: seq<EdgePath>, b: seq<EdgePath>)
    ensures Ends(a + b) == Ends(a) + Ends(b)
  {
  }

  lemma {:induction false} KnownRefsLast(c: Component, refs: seq<Ref>, known: set<string>)
    requires refs != []
    ensures KnownRefsOf(c, refs, known) == KnownRefsOf(c, refs[..|refs| - 1], known) +
            KnownRefsOf(c, [refs[|refs| - 1]], known)
  {
    var init := refs[..|refs| - 1];
    if init == [] {
      assert refs == [refs[0]];
    } else {
      KnownRefsLast(c, refs[1..], known);
      assert init[1..] == refs[1..][..|refs| - 2];
    }
  }

  lemma {:induction false} AllKnownLast(cs: seq<Component>, known: set<string>)
    requires cs != []
    ensures AllKnownRefs(cs, known) == AllKnownRefs(cs[..|cs| - 1], known) +
            KnownRefsOf(cs[|cs| - 1], cs[|cs| - 1].refs, known)
  {
    var init := cs[..|cs| - 1];
    if init == [] {
      assert cs == [cs[0]];
      assert AllKnownRefs(cs[1..], known) == [];
    } else {
      AllKnownLast(cs[1..], known);
      assert init[1..] == cs[1..][..|cs| - 2];
    }
  }

  lemma {:induction false} EdgesIntoEnds(c: Component, refs: seq<Ref>, pos: map<string, Box>,
                                         bad: set<(string, string)>, dir: Direction)
    ensures Ends(EdgesInto(c.name, refs, pos, bad, dir)) == KnownRefsOf(c, refs, pos.Keys)
  {
    if refs != [] {
      var init, last := refs[..|refs| - 1], refs[|refs| - 1];
      EdgesIntoEnds(c, init, pos, bad, dir);
      EndsConcat(EdgesInto(c.name, init, pos, bad, dir), EdgeFor(c.name, last, pos, bad, dir));
      KnownRefsLast(c, refs, pos.Keys);
    }
  }

  lemma {:induction false} AllEdgesEnds(cs: seq<Component>, pos: map<string, Box>, bad: set<(string, string)>,
                                        dir: Direction)
    ensures Ends(AllEdges(cs, pos, bad, dir)) == AllKnownRefs(cs, pos.Keys)
  {
    if cs != [] {
      var init, last := cs[..|cs| - 1], cs[|cs| - 1];
      AllEdgesEnds(init, pos, bad, dir);
      EdgesIntoEnds(last, last.refs, pos, bad, dir);
      EndsConcat(AllEdges(init, pos, bad, dir), EdgesInto(last.name, last.refs, pos, bad, dir));
      AllKnownLast(cs, pos.Keys);
    }
  }

  lemma PlacedNames(cs: seq<Component>, pos: map<string, Box>)
    requires forall n :: n in pos <==> n in Names(cs)
    ensures pos.Keys == set n | n in Names(cs)
  {
  }

  /** One edge a known reference, repetitions included, in the order of declaration. */
  lemma EdgesFollowRefs(cs: seq<Component>, dir: Direction, errors: seq<PairingError>, at: Placement, out: Output)
    requires LaidOut(cs, dir, errors, at, out)
    ensures Ends(out.edges) == AllKnownRefs(cs, set n | n in Names(cs))
  {
    AllEdgesEnds(cs, at.pos, UnmatchedEdges(errors), dir);
    PlacedNames(cs, at.pos);
  }

  // ---------------------------------------------------------------- declaration order

  ghost predicate SameSet(cs: seq<Component>, ds: seq<Component>) {
    forall c :: c in cs <==> c in ds
  }

  lemma NamesSorted(col: seq<Component>)
    requires Sorted(ByName(), col)
    ensures Sorted(Less, Names(col))
  {
    forall i, j | 0 <= i < j < |col|
      ensures !Less(Names(col)[j], Names(col)[i])
    {
      assert !ByName()(col[j], col[i]);
    }
  }

  lemma ByNameIsStrictWeakOrder()
    ensures StrictWeakOrder(ByName())
  {
    LessIsStrictWeakOrder();
    forall a, b | ByName()(a, b)
      ensures !ByName()(b, a)
    {
      LessAsymmetric(a.name, b.name);
    }
    forall a, b, c | !ByName()(a, b) && !ByName()(b, c)
      ensures !ByName()(a, c)
    {
      assert !Less(a.name, b.name) && !Less(b.name, c.name);
    }
  }

  /** Columns are sorted by name. */
  lemma ColumnSorted(cs: seq<Component>, rank: map<string, int>, r: int)
    ensures Sorted(Less, Names(Column(cs, rank, r))) && Ascending(Names(Column(cs, rank, r)))
  {
    ByNameIsStrictWeakOrder();
    StableSortSorted(ByName(), Bucket(cs, rank, r));
    NamesSorted(Column(cs, rank, r));
    SortedIsAscending(Names(Column(cs, rank, r)));
  }

  lemma ColumnNames(cs: seq<Component>, rank: map<string, int>, r: int, n: string)
    ensures n in Names(Column(cs, rank, r)) <==> exists c :: c in cs && c.name == n && n in rank && rank[n] == r
  {
    var col := Column(cs, rank, r);
    if n in Names(col) {
      var i :| 0 <= i < |col| && Names(col)[i] == n;
      ColumnHas(cs, rank, r, col[i]);
    }
    if c :| c in cs && c.name == n && n in rank && rank[n] == r {
      ColumnHas(cs, rank, r, c);
      var i :| 0 <= i < |col| && col[i] == c;
      assert Names(col)[i] == n;
    }
  }

  lemma SameColumnNames(cs: seq<Component>, ds: seq<Component>, rank: map<string, int>, r: int)
    requires SameSet(cs, ds)
    ensures forall n :: n in Names(Column(cs, rank, r)) <==> n in Names(Column(ds, rank, r))
  {
    forall n
      ensures n in Names(Column(cs, rank, r)) <==> n in Names(Column(ds, rank, r))
    {
      ColumnNames(cs, rank, r, n);
      ColumnNames(ds, rank, r, n);
    }
  }

  lemma ColumnWithin(cs: seq<Component>, rank: map<string, int>, r: int)
    ensures forall c :: c in Column(cs, rank, r) ==> c in cs
  {
    forall c | c in Column(cs, rank, r)
      ensures c in cs
    {
      ColumnHas(cs, rank, r, c);
    }
  }

  lemma ColumnIs(cs: seq<Component>, rank: map<string, int>, r: int, names: set<string>)
    requires UniqueNames(cs) && forall n :: n in Names(Column(cs, rank, r)) <==> n in names
    ensures Names(Column(cs, rank, r)) == SortedSeq(names)
  {
    ColumnDistinct(cs, rank, r);
    ColumnSorted(cs, rank, r);
    SortedSeqUnique(names, Names(Column(cs, rank, r)));
  }

  lemma ColumnPermuted(cs: seq<Component>, ds: seq<Component>, rank: map<string, int>, r: int)
    requires UniqueNames(cs) && UniqueNames(ds) && SameSet(cs, ds)
    ensures Column(cs, rank, r) == Column(ds, rank, r)
  {
    var names := set n | n in Names(Column(cs, rank, r));
    ColumnIs(cs, rank, r, names);
    SameColumnNames(cs, ds, rank, r);
    ColumnIs(ds, rank, r, names);
    ColumnWithin(cs, rank, r);
    ColumnWithin(ds, rank, r);
    SameNamesSameColumn(cs, Column(cs, rank, r), Column(ds, rank, r));
  }

  lemma SameNamesSameColumn(cs: seq<Component>, a: seq<Component>, b: seq<Component>)
    requires UniqueNames(cs) && Names(a) == Names(b)
    requires (forall c :: c in a ==> c in cs) && (forall c :: c in b ==> c in cs)
    ensures a == b
  {
    forall i | 0 <= i < |a|
      ensures |a| == |b| && a[i] == b[i]
    {
      assert |Names(a)| == |a| && |Names(b)| == |b|;
      assert a[i] in cs && b[i] in cs && Names(a)[i] == Names(b)[i];
      UniqueNamesByElement(cs);
    }
    assert |Names(a)| == |a| && |Names(b)| == |b|;
  }

  lemma SameStand(cs: seq<Component>, ds: seq<Component>, rank: map<string, int>, dir: Direction, a: Box, b: Box,
                  name: string)
    requires UniqueNames(cs) && UniqueNames(ds) && SameSet(cs, ds)
    requires Stands(cs, rank, dir, a, name) && Stands(ds, rank, dir, b, name)
    ensures a == b
  {
    ColumnPermuted(cs, ds, rank, rank[name]);
    ColumnDistinct(cs, rank, rank[name]);
    var col := Column(cs, rank, rank[name]);
    var i :| StandsAt(cs, rank, dir, a, name, i);
    var j :| StandsAt(ds, rank, dir, b, name, j);
    SameSlot(col, i, j);
  }

  lemma SameSlot(col: seq<Component>, i: int, j: int)
    requires UniqueNames(col) && 0 <= i < |col| && 0 <= j < |col| && col[i].name == col[j].name
    ensures i == j
  {
    assert Names(col)[i] == Names(col)[j];
  }

  lemma SameNames(cs: seq<Component>, ds: seq<Component>)
    requires UniqueNames(cs) && UniqueNames(ds) && SameSet(cs, ds)
    ensures SortNames(Names(cs)) == SortNames(Names(ds))
  {
    var names := set n | n in Names(cs);
    SortedIs(cs, names);
    forall n
      ensures n in Names(ds) <==> n in names
    {
      NamedIn(cs, n);
      NamedIn(ds, n);
    }
    SortedIs(ds, names);
  }

  lemma NamedIn(cs: seq<Component>, n: string)
    ensures n in Names(cs) <==> exists c :: c in cs && c.name == n
  {
    if n in Names(cs) {
      var i :| 0 <= i < |cs| && Names(cs)[i] == n;
      assert cs[i] in cs;
    }
    if c :| c in cs && c.name == n {
      var i :| 0 <= i < |cs| && cs[i] == c;
      assert Names(cs)[i] == n;
    }
  }

  lemma SortedIs(cs: seq<Component>, names: set<string>)
    requires UniqueNames(cs) && forall n :: n in Names(cs) <==> n in names
    ensures SortNames(Names(cs)) == SortedSeq(names)
  {
    SortNamesSorted(Names(cs));
    SameElements(SortNames(Names(cs)), Names(cs));
    PermutationDistinct(Names(cs), SortNames(Names(cs)));
    SortedSeqUnique(names, SortNames(Names(cs)));
  }

  /** The boxes and the extent do not depend on the order the components are declared in. */
  lemma LayoutIgnoresDeclarationOrder(cs: seq<Component>, ds: seq<Component>, dir: Direction, errors: seq<PairingError>,
                                      at: Placement, also: Placement, a: Output, b: Output)
    requires multiset(cs) == multiset(ds)
    requires LaidOut(cs, dir, errors, at, a) && LaidOut(ds, dir, errors, also, b)
    ensures a.nodes == b.nodes && a.width == b.width && a.height == b.height
  {
    SameElements(cs, ds);
    SameRanks(cs, ds, dir, at, also);
    SameExtent(cs, ds, dir, at, also);
    SameNodes(cs, ds, dir, errors, at, also, a, b);
  }

  lemma SameNodes(cs: seq<Component>, ds: seq<Component>, dir: Direction, errors: seq<PairingError>,
                  at: Placement, also: Placement, a: Output, b: Output)
    requires at.rank == also.rank && SameSet(cs, ds)
    requires LaidOut(cs, dir, errors, at, a) && LaidOut(ds, dir, errors, also, b)
    ensures a.nodes == b.nodes
  {
    SameNames(cs, ds);
    SameBoxes(cs, ds, dir, at, also, SortNames(Names(cs)));
  }

  lemma SameBoxes(cs: seq<Component>, ds: seq<Component>, dir: Direction, at: Placement, also: Placement,
                  names: seq<string>)
    requires at.rank == also.rank && SameSet(cs, ds) && UniqueNames(cs) && UniqueNames(ds)
    requires AllStand(cs, at.rank, dir, at.pos) && AllStand(ds, at.rank, dir, also.pos)
    requires forall n :: n in names ==> n in at.pos && n in also.pos
    ensures Boxes(at.pos, names) == Boxes(also.pos, names)
  {
    forall i | 0 <= i < |names|
      ensures Boxes(at.pos, names)[i] == Boxes(also.pos, names)[i]
    {
      var n := names[i];
      assert n in names;
      assert Stands(cs, at.rank, dir, at.pos[n], n) && Stands(ds, at.rank, dir, also.pos[n], n);
      SameStand(cs, ds, at.rank, dir, at.pos[n], also.pos[n], n);
    }
  }

  lemma SameRanks(cs: seq<Component>, ds: seq<Component>, dir: Direction, at: Placement, also: Placement)
    requires multiset(cs) == multiset(ds) && Positions(cs, dir, at) && Positions(ds, dir, also)
    ensures at.rank == also.rank
  {
    IndexPermuted(cs, ds);
    RankingUnique(GraphOf(cs), at.rank, also.rank);
  }

  ghost predicate Agree(f: int -> nat, g: int -> nat) {
    forall r :: f(r) == g(r)
  }

  lemma SameWidths(cs: seq<Component>, ds: seq<Component>, rank: map<string, int>)
    requires UniqueNames(cs) && UniqueNames(ds) && SameSet(cs, ds)
    ensures Agree(Widths(cs, rank), Widths(ds, rank))
  {
    forall r
      ensures Widths(cs, rank)(r) == Widths(ds, rank)(r)
    {
      ColumnPermuted(cs, ds, rank, r);
    }
  }

  lemma SameWidest(f: int -> nat, g: int -> nat, n: int, a: int, b: int)
    requires WidestOf(f, n, a) && WidestOf(g, n, b) && Agree(f, g)
    ensures a == b
  {
  }

  lemma SameExtent(cs: seq<Component>, ds: seq<Component>, dir: Direction, at: Placement, also: Placement)
    requires Positions(cs, dir, at) && Positions(ds, dir, also) && at.rank == also.rank
    requires SameSet(cs, ds)
    ensures at.maxRank == also.maxRank && at.maxCols == also.maxCols
  {
    SameMaxRank(at.rank, at.maxRank, also.maxRank);
    SameMaxCols(cs, ds, at.rank, at.maxRank + 1, at.maxCols, also.maxCols);
  }

  lemma SameMaxCols(cs: seq<Component>, ds: seq<Component>, rank: map<string, int>, n: int, a: int, b: int)
    requires UniqueNames(cs) && UniqueNames(ds) && SameSet(cs, ds)
    requires WidestOf(Widths(cs, rank), n, a) && WidestOf(Widths(ds, rank), n, b)
    ensures a == b
  {
    SameWidths(cs, ds, rank);
    SameWidest(Widths(cs, rank), Widths(ds, rank), n, a, b);
  }

  lemma SameMaxRank(rank: map<string, int>, a: int, b: int)
    requires RanksTo(rank, a) && RanksTo(rank, b)
    ensures a == b
  {
  }
}

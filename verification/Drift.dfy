/** Drift edges: the events a run of snapshots of the drift rows gives rise to, target by target. */
module Drift {
  import opened Order

  datatype Record = Record(target: string, hasDrift: bool)

  datatype Kind = Detected | Resolved

  datatype Event = Event(kind: Kind, targets: seq<string>)

  function Ids(rows: seq<Record>): (r: seq<string>)
    ensures |r| == |rows| && forall i :: 0 <= i < |r| ==> r[i] == rows[i].target
  {
    seq(|rows|, i requires 0 <= i < |rows| => rows[i].target)
  }

  /** `indexDriftRecords` */
  function IndexRecords(rows: seq<Record>): map<string, Record> {
    if rows == [] then map[] else IndexRecords(rows[..|rows| - 1])[rows[|rows| - 1].target := rows[|rows| - 1]]
  }

  predicate DriftedIn(m: map<string, Record>, t: string) {
    t in m && m[t].hasDrift
  }

  /** The edge one row is: clean or unseen to drifted, or drifted to clean. */
  function RowEdge(prior: map<string, Record>, t: string, hasDrift: bool): seq<Kind> {
    if hasDrift && !DriftedIn(prior, t) then [Detected]
    else if !hasDrift && DriftedIn(prior, t) then [Resolved]
    else []
  }

  function EdgeTargets(prior: map<string, Record>, rows: seq<Record>, kind: Kind): seq<string> {
    if rows == [] then []
    else
      var last := rows[|rows| - 1];
      EdgeTargets(prior, rows[..|rows| - 1], kind)
      + if RowEdge(prior, last.target, last.hasDrift) == [kind] then [last.target] else []
  }

  function EventOf(kind: Kind, targets: seq<string>): seq<Event> {
    if targets == [] then [] else [Event(kind, targets)]
  }

  function Events(prior: map<string, Record>, rows: seq<Record>): seq<Event> {
    EventOf(Detected, EdgeTargets(prior, rows, Detected)) + EventOf(Resolved, EdgeTargets(prior, rows, Resolved))
  }

  lemma EdgeTargetsNext(prior: map<string, Record>, rows: seq<Record>, i: nat, kind: Kind)
    requires i < |rows|
    ensures EdgeTargets(prior, rows[..i + 1], kind) ==
            EdgeTargets(prior, rows[..i], kind)
            + if RowEdge(prior, rows[i].target, rows[i].hasDrift) == [kind] then [rows[i].target] else []
  {
    assert rows[..i + 1][..i] == rows[..i];
  }

  /** `transitionEvents` */
  method TransitionEvents(prior: map<string, Record>, rows: seq<Record>) returns (events: seq<Event>)
    ensures events == Events(prior, rows)
  {
    var detected, resolved: seq<string> := [], [];
    for i := 0 to |rows|
      invariant detected == EdgeTargets(prior, rows[..i], Detected)
      invariant resolved == EdgeTargets(prior, rows[..i], Resolved)
    {
      EdgeTargetsNext(prior, rows, i, Detected);
      EdgeTargetsNext(prior, rows, i, Resolved);
      var curr := rows[i];
      var hasPrior := curr.target in prior;
      if curr.hasDrift && (!hasPrior || !prior[curr.target].hasDrift) {
        detected := detected + [curr.target];
      } else if !curr.hasDrift && hasPrior && prior[curr.target].hasDrift {
        resolved := resolved + [curr.target];
      }
    }
    assert rows[..|rows|] == rows;
    events := [];
    if |detected| > 0 {
      events := events + [Event(Detected, detected)];
    }
    if |resolved| > 0 {
      events := events + [Event(Resolved, resolved)];
    }
  }

  ghost predicate UniqueTargets(rows: seq<Record>) {
    Distinct(Ids(rows))
  }

  /** What one step means for one target. */
  function EdgeOf(prior: map<string, Record>, curr: map<string, Record>, t: string): seq<Kind> {
    if t in curr then RowEdge(prior, t, curr[t].hasDrift) else []
  }

  lemma {:induction false} EdgeTargetsHas(prior: map<string, Record>, rows: seq<Record>, kind: Kind, t: string)
    requires UniqueTargets(rows)
    ensures t in EdgeTargets(prior, rows, kind) <==> EdgeOf(prior, IndexRecords(rows), t) == [kind]
    ensures t in IndexRecords(rows) <==> t in Ids(rows)
    ensures Distinct(EdgeTargets(prior, rows, kind))
  {
    if rows != [] {
      var init, last, ids := rows[..|rows| - 1], rows[|rows| - 1], Ids(rows);
      assert ids == Ids(init) + [last.target];
      DistinctParts(Ids(init), [last.target]);
      EdgeTargetsHas(prior, init, kind, t);
      EdgeTargetsHas(prior, init, kind, last.target);
      assert last.target in [last.target] && last.target !in Ids(init);
      DistinctConcat(EdgeTargets(prior, init, kind),
                     if RowEdge(prior, last.target, last.hasDrift) == [kind] then [last.target] else []);
    }
  }

  ghost predicate Tells(events: seq<Event>, kind: Kind, t: string) {
    exists i :: 0 <= i < |events| && events[i].kind == kind && t in events[i].targets
  }

  /** A step emits at most one event of each kind, none of them empty or listing a target
      twice, and tells of a target exactly its edge. */
  lemma StepEvents(prior: map<string, Record>, rows: seq<Record>, kind: Kind, t: string)
    requires UniqueTargets(rows)
    ensures var events := Events(prior, rows);
            && (forall i, j :: 0 <= i < j < |events| ==> events[i].kind != events[j].kind)
            && (forall i :: 0 <= i < |events| ==> events[i].targets != [] && Distinct(events[i].targets))
            && (Tells(events, kind, t) <==> EdgeOf(prior, IndexRecords(rows), t) == [kind])
  {
    EdgeTargetsHas(prior, rows, Detected, t);
    EdgeTargetsHas(prior, rows, Resolved, t);
    EventsTell(prior, rows, kind, t);
  }

  /** Detections come first, and an event lists its targets in the order of the rows: `at` says
      where each of them is. */
  lemma EventsInOrder(prior: map<string, Record>, rows: seq<Record>, e: nat) returns (at: seq<nat>)
    requires e < |Events(prior, rows)|
    ensures |Events(prior, rows)| <= 2 && (|Events(prior, rows)| == 2 ==>
              Events(prior, rows)[0].kind == Detected && Events(prior, rows)[1].kind == Resolved)
    ensures |at| == |Events(prior, rows)[e].targets|
    ensures forall k :: 0 <= k < |at| ==> at[k] < |rows| && Events(prior, rows)[e].targets[k] == rows[at[k]].target
    ensures forall k, l :: 0 <= k < l < |at| ==> at[k] < at[l]
  {
    at := EdgeTargetsInOrder(prior, rows, Events(prior, rows)[e].kind);
  }

  lemma {:induction false} EdgeTargetsInOrder(prior: map<string, Record>, rows: seq<Record>, kind: Kind)
    returns (at: seq<nat>)
    ensures |at| == |EdgeTargets(prior, rows, kind)|
    ensures forall k :: 0 <= k < |at| ==> at[k] < |rows| && EdgeTargets(prior, rows, kind)[k] == rows[at[k]].target
    ensures forall k, l :: 0 <= k < l < |at| ==> at[k] < at[l]
  {
    at := [];
    if rows != [] {
      var last := rows[|rows| - 1];
      at := EdgeTargetsInOrder(prior, rows[..|rows| - 1], kind);
      if RowEdge(prior, last.target, last.hasDrift) == [kind] {
        at := at + [|rows| - 1];
      }
    }
  }

  lemma EventsTell(prior: map<string, Record>, rows: seq<Record>, kind: Kind, t: string)
    ensures Tells(Events(prior, rows), kind, t) <==> t in EdgeTargets(prior, rows, kind)
  {
    var events := Events(prior, rows);
    if t in EdgeTargets(prior, rows, kind) {
      var at := if kind == Detected then 0 else |EventOf(Detected, EdgeTargets(prior, rows, Detected))|;
      assert events[at] == Event(kind, EdgeTargets(prior, rows, kind));
    }
  }

  // ---------------------------------------------------------------- a run of snapshots

  type Snapshots = seq<seq<Record>>

  ghost predicate UniqueThroughout(snaps: Snapshots) {
    forall i :: 0 <= i < |snaps| ==> UniqueTargets(snaps[i])
  }

  predicate Has(snaps: Snapshots, n: nat, t: string)
    requires n < |snaps|
  {
    t in IndexRecords(snaps[n])
  }

  predicate DriftedAt(snaps: Snapshots, n: nat, t: string)
    requires n < |snaps|
  {
    DriftedIn(IndexRecords(snaps[n]), t)
  }

  /** What the events of the steps up to snapshot `n` tell of `t`, oldest first. */
  function Story(snaps: Snapshots, t: string, n: nat): seq<Kind>
    requires n < |snaps|
  {
    if n == 0 then [] else Story(snaps, t, n - 1) + EdgeOf(IndexRecords(snaps[n - 1]), IndexRecords(snaps[n]), t)
  }

  /** The kinds of the events that list `t`, in order. */
  function Mentions(events: seq<Event>, t: string): seq<Kind> {
    if events == [] then []
    else Mentions(events[..|events| - 1], t)
         + if t in events[|events| - 1].targets then [events[|events| - 1].kind] else []
  }

  /** What the notifier is told of `t` by the steps up to snapshot `n`, oldest first. */
  function Told(snaps: Snapshots, t: string, n: nat): seq<Kind>
    requires n < |snaps|
  {
    if n == 0 then [] else Told(snaps, t, n - 1) + Mentions(Events(IndexRecords(snaps[n - 1]), snaps[n]), t)
  }

  lemma MentionsEdge(prior: map<string, Record>, rows: seq<Record>, t: string)
    requires UniqueTargets(rows)
    ensures Mentions(Events(prior, rows), t) == EdgeOf(prior, IndexRecords(rows), t)
  {
    EdgeTargetsHas(prior, rows, Detected, t);
    EdgeTargetsHas(prior, rows, Resolved, t);
    MentionsBoth(EdgeTargets(prior, rows, Detected), EdgeTargets(prior, rows, Resolved), t);
  }

  lemma MentionsBoth(detected: seq<string>, resolved: seq<string>, t: string)
    ensures Mentions(EventOf(Detected, detected) + EventOf(Resolved, resolved), t) ==
            (if t in detected then [Detected] else []) + if t in resolved then [Resolved] else []
  {
    MentionsNext([], Detected, detected, t);
    MentionsNext([] + EventOf(Detected, detected), Resolved, resolved, t);
    assert [] + EventOf(Detected, detected) == EventOf(Detected, detected);
  }

  lemma MentionsNext(before: seq<Event>, kind: Kind, targets: seq<string>, t: string)
    ensures Mentions(before + EventOf(kind, targets), t) == Mentions(before, t) + if t in targets then [kind] else []
  {
    var events := before + EventOf(kind, targets);
    if targets == [] {
      assert events == before;
    } else {
      assert events[..|events| - 1] == before;
    }
  }

  /** With one row a target, the events of a run tell of a target exactly its edges, in order. */
  lemma {:induction false} ToldIsStory(snaps: Snapshots, t: string, n: nat)
    requires UniqueThroughout(snaps) && n < |snaps|
    ensures Told(snaps, t, n) == Story(snaps, t, n)
  {
    if n > 0 {
      ToldIsStory(snaps, t, n - 1);
      MentionsEdge(IndexRecords(snaps[n - 1]), snaps[n], t);
    }
  }

  function Count(story: seq<Kind>, kind: Kind): nat {
    multiset(story)[kind]
  }

  predicate Turns(story: seq<Kind>, i: int)
    requires 0 < i < |story|
  {
    story[i] != story[i - 1]
  }

  /** Never the same kind twice in a row, and `first` first. */
  ghost predicate Alternates(story: seq<Kind>, first: Kind) {
    && (story != [] ==> story[0] == first)
    && forall i :: 0 < i < |story| ==> Turns(story, i)
  }

  /** The row of `t` disappears while drifted. */
  ghost predicate VanishesAt(snaps: Snapshots, t: string, i: int) {
    0 <= i < |snaps| - 1 && DriftedAt(snaps, i, t) && !Has(snaps, i + 1, t)
  }

  function Drift01(snaps: Snapshots, t: string, n: nat): int
    requires n < |snaps|
  {
    if DriftedAt(snaps, n, t) then 1 else 0
  }

  ghost predicate Balanced(snaps: Snapshots, t: string, n: int) {
    && 0 <= n < |snaps|
    && Count(Story(snaps, t, n), Detected) - Count(Story(snaps, t, n), Resolved)
        == Drift01(snaps, t, n) - Drift01(snaps, t, 0)
  }

  lemma BalanceStep(snaps: Snapshots, t: string, n: nat)
    requires 0 < n < |snaps| && Balanced(snaps, t, n - 1)
    ensures Balanced(snaps, t, n) <==> !VanishesAt(snaps, t, n - 1)
  {
    var edge := EdgeOf(IndexRecords(snaps[n - 1]), IndexRecords(snaps[n]), t);
    assert multiset(Story(snaps, t, n)) == multiset(Story(snaps, t, n - 1)) + multiset(edge);
  }

  ghost predicate BalancedTo(snaps: Snapshots, t: string, n: int) {
    forall m :: 0 <= m <= n ==> Balanced(snaps, t, m)
  }

  ghost predicate KeptTo(snaps: Snapshots, t: string, n: int) {
    forall i :: 0 <= i < n ==> !VanishesAt(snaps, t, i)
  }

  /** At every snapshot the detections less the resolutions are 1 if the target has become
      drifted since the first snapshot and 0 if it is as it was there (-1 if it has become
      clean), exactly when its row never disappears while drifted. */
  lemma {:induction false} BalancedIff(snaps: Snapshots, t: string, n: nat)
    requires n < |snaps|
    ensures BalancedTo(snaps, t, n) <==> KeptTo(snaps, t, n)
  {
    if n > 0 {
      BalancedIff(snaps, t, n - 1);
      BalancedNext(snaps, t, n);
      if BalancedTo(snaps, t, n - 1) {
        assert Balanced(snaps, t, n - 1);
        BalanceStep(snaps, t, n);
      }
    }
  }

  lemma BalancedNext(snaps: Snapshots, t: string, n: int)
    requires n > 0
    ensures BalancedTo(snaps, t, n) <==> BalancedTo(snaps, t, n - 1) && Balanced(snaps, t, n)
    ensures KeptTo(snaps, t, n) <==> KeptTo(snaps, t, n - 1) && !VanishesAt(snaps, t, n - 1)
  {
  }

  /** The last thing told, or what was the case at the first snapshot. */
  function LastTold(snaps: Snapshots, t: string, n: nat): Kind
    requires n < |snaps|
  {
    var story := Story(snaps, t, n);
    if story != [] then story[|story| - 1] else if DriftedAt(snaps, 0, t) then Detected else Resolved
  }

  function FirstDue(snaps: Snapshots, t: string): Kind
    requires snaps != []
  {
    if DriftedAt(snaps, 0, t) then Resolved else Detected
  }

  lemma NoEdge(snaps: Snapshots, t: string, n: nat)
    requires 0 < n < |snaps| && EdgeOf(IndexRecords(snaps[n - 1]), IndexRecords(snaps[n]), t) == []
    ensures Story(snaps, t, n) == Story(snaps, t, n - 1) && LastTold(snaps, t, n) == LastTold(snaps, t, n - 1)
  {
  }

  /** A drifted target was last told drifted. */
  lemma {:induction false} DriftedIsTold(snaps: Snapshots, t: string, n: nat)
    requires n < |snaps| && DriftedAt(snaps, n, t)
    ensures LastTold(snaps, t, n) == Detected
  {
    if n > 0 && DriftedAt(snaps, n - 1, t) {
      DriftedIsTold(snaps, t, n - 1);
      NoEdge(snaps, t, n);
    }
  }

  /** The step to snapshot `n` tells again what was last told. */
  predicate RepeatsAt(snaps: Snapshots, t: string, n: nat)
    requires 0 < n < |snaps|
  {
    EdgeOf(IndexRecords(snaps[n - 1]), IndexRecords(snaps[n]), t) == [LastTold(snaps, t, n - 1)]
  }

  ghost predicate AlternatesTo(snaps: Snapshots, t: string, n: nat)
    requires n < |snaps|
  {
    Alternates(Story(snaps, t, n), FirstDue(snaps, t))
  }

  lemma AlternatesNext(snaps: Snapshots, t: string, n: nat)
    requires 0 < n < |snaps|
    ensures AlternatesTo(snaps, t, n) <==> AlternatesTo(snaps, t, n - 1) && !RepeatsAt(snaps, t, n)
  {
    var edge := EdgeOf(IndexRecords(snaps[n - 1]), IndexRecords(snaps[n]), t);
    assert Story(snaps, t, n) == Story(snaps, t, n - 1) + edge;
    if edge == [] {
      NoEdge(snaps, t, n);
    } else {
      assert edge == [edge[0]];
      AlternatesAppend(Story(snaps, t, n - 1), edge[0], FirstDue(snaps, t));
    }
  }

  lemma AlternatesAppend(story: seq<Kind>, next: Kind, first: Kind)
    ensures Alternates(story + [next], first) <==>
            Alternates(story, first) && if story == [] then next == first else next != story[|story| - 1]
  {
    var longer := story + [next];
    assert forall i :: 0 < i < |story| ==> (Turns(longer, i) <==> Turns(story, i));
    if Alternates(longer, first) {
      assert story != [] ==> Turns(longer, |story|);
      assert story != [] ==> longer[0] == story[0];
      assert forall i :: 0 < i < |story| ==> Turns(longer, i);
    }
  }

  /** A disappearance while drifted, with the target drifted again at snapshot `j`. */
  ghost predicate LostAndBack(snaps: Snapshots, t: string, i: int, j: int) {
    VanishesAt(snaps, t, i) && i < j < |snaps| && DriftedAt(snaps, j, t)
  }

  /** Told drifted, no longer drifted, never told resolved: it vanished, and stayed so. */
  lemma {:induction false} ToldButGone(snaps: Snapshots, t: string, n: nat) returns (i: nat)
    requires n < |snaps| && LastTold(snaps, t, n) == Detected && !DriftedAt(snaps, n, t)
    ensures i < n && VanishesAt(snaps, t, i)
  {
    if DriftedAt(snaps, n - 1, t) {
      i := n - 1;
    } else {
      NoEdge(snaps, t, n);
      i := ToldButGone(snaps, t, n - 1);
    }
  }

  ghost predicate CleanBetween(snaps: Snapshots, t: string, i: int, n: int) {
    0 <= i < n < |snaps| && forall m :: i < m <= n ==> !DriftedAt(snaps, m, t)
  }

  lemma {:induction false} GoneStaysTold(snaps: Snapshots, t: string, i: nat, n: nat)
    requires VanishesAt(snaps, t, i) && CleanBetween(snaps, t, i, n)
    ensures LastTold(snaps, t, n) == Detected
  {
    assert !DriftedAt(snaps, n, t);
    if n == i + 1 {
      DriftedIsTold(snaps, t, i);
    } else {
      var before := n - 1;
      assert !DriftedAt(snaps, before, t);
      GoneStaysTold(snaps, t, i, before);
    }
    NoEdge(snaps, t, n);
  }

  lemma DetectedAgain(snaps: Snapshots, t: string, n: nat)
    requires 0 < n < |snaps| && DriftedAt(snaps, n, t) && !DriftedAt(snaps, n - 1, t)
        && LastTold(snaps, t, n - 1) == Detected
    ensures RepeatsAt(snaps, t, n)
  {
  }

  /** The step to the first drifted snapshot after a disappearance detects a second time. */
  lemma FirstBack(snaps: Snapshots, t: string, i: nat, j: nat) returns (k: nat)
    requires LostAndBack(snaps, t, i, j)
    ensures k <= j && LostAndBack(snaps, t, i, k) && RepeatsAt(snaps, t, k)
  {
    k := i + 1;
    while !DriftedAt(snaps, k + 1, t)
      invariant i < k < j && CleanBetween(snaps, t, i, k)
      decreases j - k
    {
      k := k + 1;
    }
    GoneStaysTold(snaps, t, i, k);
    DetectedAgain(snaps, t, k + 1);
    k := k + 1;
  }

  ghost predicate BackAt(snaps: Snapshots, t: string, j: int) {
    exists i :: LostAndBack(snaps, t, i, j)
  }

  ghost predicate BackBy(snaps: Snapshots, t: string, n: int) {
    exists j :: BackAt(snaps, t, j) && j <= n
  }

  lemma RepeatIsBack(snaps: Snapshots, t: string, n: nat)
    requires 0 < n < |snaps| && RepeatsAt(snaps, t, n)
    ensures BackAt(snaps, t, n)
  {
    if DriftedAt(snaps, n - 1, t) {
      DriftedIsTold(snaps, t, n - 1);
    }
    var i := ToldButGone(snaps, t, n - 1);
    assert LostAndBack(snaps, t, i, n);
  }

  /** The first time the target is back its detection is repeated. */
  lemma BackIsRepeat(snaps: Snapshots, t: string, n: nat)
    requires 0 < n < |snaps| && BackAt(snaps, t, n) && !BackBy(snaps, t, n - 1)
    ensures RepeatsAt(snaps, t, n)
  {
    var i :| LostAndBack(snaps, t, i, n);
    var k := FirstBack(snaps, t, i, n);
    if k < n {
      BackEarlier(snaps, t, i, k, n - 1);
    }
  }

  lemma BackEarlier(snaps: Snapshots, t: string, i: int, j: int, n: int)
    requires LostAndBack(snaps, t, i, j) && j <= n
    ensures BackBy(snaps, t, n)
  {
    assert BackAt(snaps, t, j);
  }

  lemma BackByNext(snaps: Snapshots, t: string, n: nat)
    requires n > 0
    ensures BackBy(snaps, t, n) <==> BackBy(snaps, t, n - 1) || BackAt(snaps, t, n)
  {
  }

  /** Up to snapshot `n` the events of a target alternate, starting with the one its first
      snapshot calls for, exactly when its row never disappears while drifted to come back
      drifted. */
  lemma {:induction false} AlternatesIff(snaps: Snapshots, t: string, n: nat)
    requires n < |snaps|
    ensures AlternatesTo(snaps, t, n) <==> !BackBy(snaps, t, n)
  {
    if n > 0 {
      AlternatesIff(snaps, t, n - 1);
      AlternatesIffNext(snaps, t, n);
    }
  }

  lemma AlternatesIffNext(snaps: Snapshots, t: string, n: nat)
    requires 0 < n < |snaps| && (AlternatesTo(snaps, t, n - 1) <==> !BackBy(snaps, t, n - 1))
    ensures AlternatesTo(snaps, t, n) <==> !BackBy(snaps, t, n)
  {
    AlternatesNext(snaps, t, n);
    BackByNext(snaps, t, n);
    RepeatsIffBack(snaps, t, n);
  }

  lemma RepeatsIffBack(snaps: Snapshots, t: string, n: nat)
    requires 0 < n < |snaps|
    ensures !BackBy(snaps, t, n - 1) ==> (RepeatsAt(snaps, t, n) <==> BackAt(snaps, t, n))
  {
    if RepeatsAt(snaps, t, n) {
      RepeatIsBack(snaps, t, n);
    }
    if BackAt(snaps, t, n) && !BackBy(snaps, t, n - 1) {
      BackIsRepeat(snaps, t, n);
    }
  }

  /** With rows only ever upserted, from an empty table on, detections and resolutions
      alternate, detection first, and one more detection than resolution means drifted now. */
  lemma UpsertOnlyAlternates(snaps: Snapshots, t: string, n: nat)
    requires n < |snaps| && snaps[0] == []
    requires forall i :: 0 <= i < |snaps| - 1 && Has(snaps, i, t) ==> Has(snaps, i + 1, t)
    ensures Alternates(Story(snaps, t, n), Detected)
    ensures Count(Story(snaps, t, n), Detected) - Count(Story(snaps, t, n), Resolved) == Drift01(snaps, t, n)
  {
    forall i | 0 <= i < |snaps|
      ensures !VanishesAt(snaps, t, i)
    {
      assert i < |snaps| - 1 && Has(snaps, i, t) ==> Has(snaps, i + 1, t);
    }
    BalancedIff(snaps, t, n);
    assert Balanced(snaps, t, n);
    assert !BackBy(snaps, t, n);
    AlternatesIff(snaps, t, n);
  }

  /** So what the notifier is told of a target alternates exactly when its row does not
      disappear while drifted and come back drifted. */
  lemma ToldAlternatesIff(snaps: Snapshots, t: string, n: nat)
    requires UniqueThroughout(snaps) && n < |snaps|
    ensures Alternates(Told(snaps, t, n), FirstDue(snaps, t)) <==> !BackBy(snaps, t, n)
  {
    ToldIsStory(snaps, t, n);
    AlternatesIff(snaps, t, n);
  }

  /** A row deleted while drifted and inserted again drifted: two detections, no resolution. */
  lemma DeletedRowDetectedTwice()
    ensures var snaps := [[], [Record("t", true)], [], [Record("t", true)]];
            Story(snaps, "t", 3) == [Detected, Detected]
  {
    var snaps := [[], [Record("t", true)], [], [Record("t", true)]];
    assert Story(snaps, "t", 1) == [Detected];
    assert Story(snaps, "t", 2) == [Detected];
  }
}

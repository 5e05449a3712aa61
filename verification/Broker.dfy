/** One deployment's part of the run broker as a step machine: its subscriber list with the
    slice's backing arrays, its publisher goroutine, and the subscribers' channels. At most one
    publisher is live at a time; publishers may follow one another. */
module Broker {
  import opened Order
  import opened Components

  /** A slice header. `arrays[0]` is the empty array behind Go's nil slice. */
  datatype Slice = Slice(arr: nat, len: nat)

  /** The publisher goroutine: none; ranging over its channel; holding an event it has just
      received; in the loop of `dispatch` over its own copy of the list; in the loop of
      `closeSubs` over the slice it took, whose contents at that moment were `snap`. */
  datatype Pub =
    | Off | Idle | Taken
    | Dispatching(event: nat, targets: seq<nat>, at: nat)
    | Closing(slice: Slice, pos: nat, snap: seq<nat>)

  /** The `select` of `dispatch` on one event: kept in the buffer, or dropped. */
  datatype Offer = Offer(event: nat, kept: bool)

  /** A subscriber's channel: how many events were dispatched before it subscribed, the offers
      made to it, how many events it has received, and whether it is closed. */
  datatype Chan = Chan(since: nat, offers: seq<Offer>, got: nat, closed: bool)

  /** Events are numbered in the order they are published; the publisher's channel holds the
      `queued` that follow those dispatched (and the one taken). */
  datatype State = State(bufSize: nat, arrays: seq<seq<nat>>, list: Slice, pub: Pub, queued: nat, pubClosed: bool,
                         dispatched: nat, chans: seq<Chan>)

  const NIL := Slice(0, 0)

  function NewBroker(asked: int): State {
    State(if asked <= 0 then 64 else asked, [[]], NIL, Off, 0, false, 0, [])
  }

  predicate SliceOk(s: State, x: Slice) {
    x.arr < |s.arrays| && x.len <= |s.arrays[x.arr]|
  }

  function Cells(s: State, x: Slice): seq<nat>
    requires SliceOk(s, x)
  {
    s.arrays[x.arr][..x.len]
  }

  /** The current subscriber list. */
  function Subs(s: State): seq<nat> {
    if SliceOk(s, s.list) then Cells(s, s.list) else []
  }

  function Kept(offers: seq<Offer>): seq<nat> {
    if offers == [] then []
    else Kept(offers[..|offers| - 1]) + if offers[|offers| - 1].kept then [offers[|offers| - 1].event] else []
  }

  function Published(s: State): nat {
    s.dispatched + s.queued + if s.pub == Taken then 1 else 0
  }

  // ---------------------------------------------------------------- steps

  /** `room` is how much more capacity than needed `append` allocates. Receiving an event and
      copying the list under the mutex are two steps. */
  datatype Step = Subscribe(room: nat) | Unsubscribe(c: nat) | Open | Publish | ClosePub | TakeEvent | Snapshot
                | OfferNext | EndDispatch | TakeSubs | CloseNext | EndClose | Receive(c: nat)

  predicate Enabled(s: State, step: Step) {
    match step
    case Subscribe(_) => true
    case Unsubscribe(c) => c < |s.chans|
    case Open => s.pub == Off
    case Publish => s.pub != Off && !s.pubClosed && s.queued < s.bufSize
    case ClosePub => s.pub != Off && !s.pubClosed
    case TakeEvent => s.pub == Idle && s.queued > 0
    case Snapshot => s.pub == Taken
    case OfferNext => s.pub.Dispatching? && s.pub.at < |s.pub.targets| && s.pub.targets[s.pub.at] < |s.chans|
    case EndDispatch => s.pub.Dispatching? && s.pub.at == |s.pub.targets|
    case TakeSubs => s.pub == Idle && s.queued == 0 && s.pubClosed
    case CloseNext => s.pub.Closing? && s.pub.pos < s.pub.slice.len && SliceOk(s, s.pub.slice) &&
                      Cells(s, s.pub.slice)[s.pub.pos] < |s.chans|
    case EndClose => s.pub.Closing? && s.pub.pos == s.pub.slice.len
    case Receive(c) => c < |s.chans| && s.chans[c].got < |Kept(s.chans[c].offers)|
  }

  /** `append(list, c)`: in place while the array has room, otherwise into a larger copy. */
  function Append(s: State, c: nat, room: nat): State
    requires SliceOk(s, s.list)
  {
    var cells: seq<nat> := s.arrays[s.list.arr];
    var n := s.list.len;
    if n < |cells| then
      s.(arrays := s.arrays[s.list.arr := cells[n := c]], list := Slice(s.list.arr, n + 1))
    else
      s.(arrays := s.arrays + [cells[..n] + [c] + seq(room, _ => 0)], list := Slice(|s.arrays|, n + 1))
  }

  /** `append(list[:i], list[i+1:]...)`: shifts the tail down inside the same array. */
  function Splice(s: State, i: nat): State
    requires SliceOk(s, s.list) && i < s.list.len
  {
    var cells, n := s.arrays[s.list.arr], s.list.len;
    s.(arrays := s.arrays[s.list.arr := cells[..i] + cells[i + 1..n] + cells[n - 1..]],
       list := Slice(s.list.arr, n - 1))
  }

  function IndexOf(cs: seq<nat>, c: nat): (i: nat)
    ensures i <= |cs| && (i < |cs| ==> cs[i] == c) && (i < |cs| <==> c in cs)
  {
    if cs == [] then 0 else if cs[0] == c then 0 else 1 + IndexOf(cs[1..], c)
  }

  function Update(s: State, c: nat, ch: Chan): State
    requires c < |s.chans|
  {
    s.(chans := s.chans[c := ch])
  }

  function Offered(s: State, c: nat): Chan
    requires c < |s.chans| && s.pub.Dispatching?
  {
    var ch := s.chans[c];
    ch.(offers := ch.offers + [Offer(s.pub.event, |Kept(ch.offers)| - ch.got < s.bufSize)])
  }

  function Take(s: State, step: Step): State
    requires SliceOk(s, s.list) && Enabled(s, step)
  {
    match step
    case Subscribe(room) => Append(s.(chans := s.chans + [Chan(s.dispatched, [], 0, false)]), |s.chans|, room)
    case Unsubscribe(c) => if IndexOf(Subs(s), c) < |Subs(s)| then Splice(s, IndexOf(Subs(s), c)) else s
    case Open => s.(pub := Idle, pubClosed := false)
    case Publish => s.(queued := s.queued + 1)
    case ClosePub => s.(pubClosed := true)
    case TakeEvent => s.(pub := Taken, queued := s.queued - 1)
    case Snapshot => s.(pub := Dispatching(s.dispatched, Subs(s), 0), dispatched := s.dispatched + 1)
    case OfferNext =>
      var c := s.pub.targets[s.pub.at];
      Update(s, c, Offered(s, c)).(pub := s.pub.(at := s.pub.at + 1))
    case EndDispatch => s.(pub := Idle)
    case TakeSubs => s.(pub := Closing(s.list, 0, Subs(s)), list := NIL)
    case CloseNext =>
      var c := Cells(s, s.pub.slice)[s.pub.pos];
      Update(s, c, s.chans[c].(closed := true)).(pub := s.pub.(pos := s.pub.pos + 1))
    case EndClose => s.(pub := Off)
    case Receive(c) => Update(s, c, s.chans[c].(got := s.chans[c].got + 1))
  }

  /** The channel a step sends to or closes; Go panics if it is closed already. */
  function Uses(s: State, step: Step): Option<nat>
    requires Enabled(s, step)
  {
    match step
    case OfferNext => Some(s.pub.targets[s.pub.at])
    case CloseNext => Some(Cells(s, s.pub.slice)[s.pub.pos])
    case _ => None
  }

  // ---------------------------------------------------------------- the invariant

  /** Waiting for the event now being dispatched. */
  predicate ToOffer(s: State, c: nat) {
    s.pub.Dispatching? && s.pub.at <= |s.pub.targets| && c in s.pub.targets[s.pub.at..]
  }

  /** Waiting to be closed by the `closeSubs` in progress. */
  predicate ToClose(s: State, c: nat) {
    s.pub.Closing? && s.pub.pos <= |s.pub.snap| && c in s.pub.snap[s.pub.pos..]
  }

  ghost predicate KnownChans(s: State, cs: seq<nat>) {
    Distinct(cs) && forall c :: c in cs ==> c < |s.chans|
  }

  /** The slice taken by `closeSubs` still holds what it held: no live header shares its array. */
  ghost predicate PubOk(s: State) {
    match s.pub
    case Dispatching(event, targets, at) => at <= |targets| && KnownChans(s, targets) && s.dispatched == event + 1
    case Closing(slice, pos, snap) =>
      && pos <= slice.len && SliceOk(s, slice) && Cells(s, slice) == snap && KnownChans(s, snap)
      && (slice.arr == s.list.arr ==> slice.arr == 0)
      && s.pubClosed && s.queued == 0
    case Off => s.queued == 0
    case _ => true
  }

  ghost predicate ListOk(s: State) {
    && |s.arrays| >= 1 && s.arrays[0] == []
    && SliceOk(s, s.list) && KnownChans(s, Subs(s)) && s.bufSize >= 1
  }

  /** The offers so far are of consecutive events, from the first dispatched after subscribing. */
  ghost predicate InOrder(ch: Chan) {
    Consecutive(ch.offers, ch.since)
  }

  /** What was dropped was dropped on a full buffer: by then a whole buffer had been kept. */
  ghost predicate DropsWereFull(offers: seq<Offer>, bufSize: nat) {
    forall j :: 0 <= j < |offers| && !offers[j].kept ==> |Kept(offers[..j])| >= bufSize
  }

  function NextEvent(ch: Chan): nat {
    ch.since + |ch.offers|
  }

  ghost predicate ChanOk(s: State, c: int) {
    && 0 <= c < |s.chans|
    && InOrder(s.chans[c])
    && s.chans[c].got <= |Kept(s.chans[c].offers)| <= s.chans[c].got + s.bufSize
    && NextEvent(s.chans[c]) <= s.dispatched
    && (c in Subs(s) ==> !s.chans[c].closed && !ToClose(s, c))
    && (c in Subs(s) && !ToOffer(s, c) ==> NextEvent(s.chans[c]) == s.dispatched)
    && (ToOffer(s, c) ==> !s.chans[c].closed && NextEvent(s.chans[c]) + 1 == s.dispatched)
    && (ToClose(s, c) ==> !s.chans[c].closed)
    && (s.pub.Closing? && c in s.pub.snap ==> ToClose(s, c) || s.chans[c].closed)
    && DropsWereFull(s.chans[c].offers, s.bufSize)
  }

  ghost predicate AllChansOk(s: State) {
    forall c :: 0 <= c < |s.chans| ==> ChanOk(s, c)
  }

  ghost predicate Inv(s: State) {
    ListOk(s) && PubOk(s) && AllChansOk(s)
  }

  // ---------------------------------------------------------------- steps keep it

  lemma SubscribeList(s: State, room: nat)
    requires ListOk(s)
    ensures var t := Take(s, Subscribe(room));
            && ListOk(t) && Subs(t) == Subs(s) + [|s.chans|]
            && |t.arrays| >= |s.arrays|
            && forall a :: 0 < a < |s.arrays| && a != s.list.arr ==> t.arrays[a] == s.arrays[a]
  {
    var t := Take(s, Subscribe(room));
    assert Subs(t) == Subs(s) + [|s.chans|];
    DistinctConcat(Subs(s), [|s.chans|]);
  }

  lemma ClosingKept(s: State, t: State)
    requires ListOk(s) && PubOk(s) && ListOk(t) && |t.chans| >= |s.chans|
    requires t.pub == s.pub && t.dispatched == s.dispatched && t.queued == s.queued && t.pubClosed == s.pubClosed
    requires |t.arrays| >= |s.arrays| && (t.list.arr == s.list.arr || t.list.arr >= |s.arrays|)
    requires forall a :: 0 < a < |s.arrays| && a != s.list.arr ==> t.arrays[a] == s.arrays[a]
    ensures PubOk(t)
  {
  }

  lemma SubscribeKeeps(s: State, room: nat)
    requires Inv(s)
    ensures Inv(Take(s, Subscribe(room)))
  {
    var t, fresh0 := Take(s, Subscribe(room)), |s.chans|;
    SubscribeList(s, room);
    ClosingKept(s, t);
    forall c | 0 <= c < |t.chans|
      ensures ChanOk(t, c)
    {
      if c < fresh0 {
        assert ChanOk(s, c);
        assert t.chans[c] == s.chans[c];
        assert c in Subs(t) <==> c in Subs(s);
      } else {
        NotPending(s, fresh0);
      }
    }
  }

  lemma NotPending(s: State, c: nat)
    requires PubOk(s)
    ensures c >= |s.chans| ==> !ToOffer(s, c) && !ToClose(s, c)
  {
    if s.pub.Dispatching? {
      assert forall d :: d in s.pub.targets[s.pub.at..] ==> d in s.pub.targets;
    }
    if s.pub.Closing? {
      assert forall d :: d in s.pub.snap[s.pub.pos..] ==> d in s.pub.snap;
    }
  }

  lemma SpliceList(s: State, i: nat)
    requires ListOk(s) && i < |Subs(s)|
    ensures ListOk(Splice(s, i)) && Subs(Splice(s, i)) == Subs(s)[..i] + Subs(s)[i + 1..]
    ensures forall c :: c in Subs(Splice(s, i)) <==> c in Subs(s) && c != Subs(s)[i]
  {
    var old0, new0 := Subs(s), Subs(Splice(s, i));
    assert new0 == old0[..i] + old0[i + 1..];
    forall c
      ensures c in new0 <==> c in old0 && c != old0[i]
    {
      SplicedOut(old0, i, c);
    }
    assert Distinct(new0);
  }

  lemma SplicedOut(cs: seq<nat>, i: nat, c: nat)
    requires Distinct(cs) && i < |cs|
    ensures c in cs[..i] + cs[i + 1..] <==> c in cs && c != cs[i]
  {
    var rest := cs[..i] + cs[i + 1..];
    if c in cs && c != cs[i] {
      var k :| 0 <= k < |cs| && cs[k] == c;
      assert rest[if k < i then k else k - 1] == c;
    }
  }

  lemma UnsubscribeKeeps(s: State, c: nat)
    requires Inv(s) && c < |s.chans|
    ensures Inv(Take(s, Unsubscribe(c)))
    ensures c !in Subs(Take(s, Unsubscribe(c)))
  {
    var t, i := Take(s, Unsubscribe(c)), IndexOf(Subs(s), c);
    if i < |Subs(s)| {
      SpliceList(s, i);
      ClosingKept(s, t);
      forall d | 0 <= d < |t.chans|
        ensures ChanOk(t, d)
      {
        assert ChanOk(s, d);
        assert d in Subs(t) ==> d in Subs(s);
      }
    }
  }

  lemma SnapshotKeeps(s: State)
    requires Inv(s) && s.pub == Taken
    ensures Inv(Take(s, Snapshot))
  {
    var t := Take(s, Snapshot);
    forall c | 0 <= c < |t.chans|
      ensures ChanOk(t, c)
    {
      assert ChanOk(s, c);
      assert t.pub.targets[0..] == Subs(s);
    }
  }

  lemma KeptNext(ch: Chan, offer: Offer)
    ensures Kept(ch.offers + [offer]) == Kept(ch.offers) + if offer.kept then [offer.event] else []
  {
    assert (ch.offers + [offer])[..|ch.offers|] == ch.offers;
  }

  lemma DropsNext(ch: Chan, offer: Offer, bufSize: nat)
    requires DropsWereFull(ch.offers, bufSize) && (offer.kept || |Kept(ch.offers)| >= bufSize)
    ensures DropsWereFull(ch.offers + [offer], bufSize)
  {
    var more := ch.offers + [offer];
    forall j | 0 <= j < |more| && !more[j].kept
      ensures |Kept(more[..j])| >= bufSize
    {
      assert more[..j] == ch.offers[..j];
      assert j == |ch.offers| ==> ch.offers[..j] == ch.offers;
    }
  }

  /** Advancing a loop over distinct channels takes exactly the current one off the waiting. */
  lemma Advance(cs: seq<nat>, at: nat, c: nat)
    requires Distinct(cs) && at < |cs|
    ensures c in cs[at + 1..] <==> c in cs[at..] && c != cs[at]
  {
    assert cs[at..] == [cs[at]] + cs[at + 1..];
    if c in cs[at + 1..] {
      var k :| 0 <= k < |cs[at + 1..]| && cs[at + 1..][k] == c;
      assert cs[at + 1 + k] == c;
    }
  }

  lemma OfferedOk(s: State, c: nat)
    requires s.pub.Dispatching? && ChanOk(s, c) && NextEvent(s.chans[c]) == s.pub.event
    ensures var ch := Offered(s, c);
            && InOrder(ch) && NextEvent(ch) == s.pub.event + 1 && ch.closed == s.chans[c].closed
            && ch.got <= |Kept(ch.offers)| <= ch.got + s.bufSize
            && DropsWereFull(ch.offers, s.bufSize)
  {
    var offer := Offered(s, c).offers[|s.chans[c].offers|];
    KeptNext(s.chans[c], offer);
    DropsNext(s.chans[c], offer, s.bufSize);
  }

  /** The channel now offered the event. */
  lemma OfferKeepsTarget(s: State)
    requires Inv(s) && Enabled(s, OfferNext)
    ensures ChanOk(Take(s, OfferNext), s.pub.targets[s.pub.at])
  {
    var t, c := Take(s, OfferNext), s.pub.targets[s.pub.at];
    assert ChanOk(s, c);
    assert t.chans[c] == Offered(s, c);
    assert s.pub.targets[s.pub.at..][0] == c;
    Advance(s.pub.targets, s.pub.at, c);
    OfferedOk(s, c);
  }

  lemma OfferKeepsChan(s: State, c: nat)
    requires Inv(s) && Enabled(s, OfferNext) && c < |s.chans| && c != s.pub.targets[s.pub.at]
    ensures ChanOk(Take(s, OfferNext), c)
  {
    assert ChanOk(s, c);
    Advance(s.pub.targets, s.pub.at, c);
    assert ToOffer(Take(s, OfferNext), c) <==> ToOffer(s, c);
  }

  lemma OfferKeeps(s: State)
    requires Inv(s) && Enabled(s, OfferNext)
    ensures Inv(Take(s, OfferNext)) && !s.chans[s.pub.targets[s.pub.at]].closed
  {
    var t, target := Take(s, OfferNext), s.pub.targets[s.pub.at];
    assert s.pub.targets[s.pub.at..][0] == target;
    assert ChanOk(s, target);
    forall c | 0 <= c < |t.chans|
      ensures ChanOk(t, c)
    {
      if c == target {
        OfferKeepsTarget(s);
      } else {
        OfferKeepsChan(s, c);
      }
    }
  }

  lemma TakeSubsKeeps(s: State)
    requires Inv(s) && Enabled(s, TakeSubs)
    ensures Inv(Take(s, TakeSubs))
  {
    var t := Take(s, TakeSubs);
    assert Subs(t) == [];
    forall c | 0 <= c < |t.chans|
      ensures ChanOk(t, c)
    {
      assert ChanOk(s, c);
      assert t.pub.snap[0..] == Subs(s);
    }
  }

  lemma CloseKeepsChan(s: State, c: nat)
    requires Inv(s) && Enabled(s, CloseNext) && c < |s.chans|
    ensures ChanOk(Take(s, CloseNext), c)
  {
    var t, target := Take(s, CloseNext), s.pub.snap[s.pub.pos];
    assert ChanOk(s, c);
    Advance(s.pub.snap, s.pub.pos, c);
    assert ToClose(t, c) <==> ToClose(s, c) && c != target;
    if c == target {
      assert s.pub.snap[s.pub.pos..][0] == target;
    }
  }

  lemma CloseKeeps(s: State)
    requires Inv(s) && Enabled(s, CloseNext)
    ensures Inv(Take(s, CloseNext)) && !s.chans[Cells(s, s.pub.slice)[s.pub.pos]].closed
  {
    var t, target := Take(s, CloseNext), s.pub.snap[s.pub.pos];
    assert s.pub.snap[s.pub.pos..][0] == target;
    assert ChanOk(s, target);
    forall c | 0 <= c < |t.chans|
      ensures ChanOk(t, c)
    {
      CloseKeepsChan(s, c);
    }
  }

  /** The steps that only move the publisher, or let a subscriber receive. */
  predicate MovesNoChannel(step: Step) {
    step in {Open, Publish, ClosePub, TakeEvent, EndDispatch, EndClose} || step.Receive?
  }

  lemma OtherKeepsChan(s: State, step: Step, c: nat)
    requires Inv(s) && Enabled(s, step) && MovesNoChannel(step) && c < |s.chans|
    ensures ChanOk(Take(s, step), c)
  {
    assert ChanOk(s, c);
  }

  lemma OtherKeeps(s: State, step: Step)
    requires Inv(s) && Enabled(s, step) && MovesNoChannel(step)
    ensures Inv(Take(s, step))
  {
    var t := Take(s, step);
    forall c | 0 <= c < |t.chans|
      ensures ChanOk(t, c)
    {
      OtherKeepsChan(s, step, c);
    }
  }

  lemma StepKeeps(s: State, step: Step)
    requires Inv(s) && Enabled(s, step)
    ensures Inv(Take(s, step))
    ensures Uses(s, step).Some? ==> Uses(s, step).value < |s.chans| && !s.chans[Uses(s, step).value].closed
  {
    match step
    case Subscribe(room) => SubscribeKeeps(s, room);
    case Unsubscribe(c) => UnsubscribeKeeps(s, c);
    case Snapshot => SnapshotKeeps(s);
    case OfferNext => OfferKeeps(s);
    case TakeSubs => TakeSubsKeeps(s);
    case CloseNext => CloseKeeps(s);
    case _ => OtherKeeps(s, step);
  }

  // ---------------------------------------------------------------- runs

  ghost predicate IsRun(s: State, steps: seq<Step>, t: State)
    decreases |steps|
  {
    if steps == [] then s == t
    else SliceOk(s, s.list) && Enabled(s, steps[0]) && IsRun(Take(s, steps[0]), steps[1..], t)
  }

  lemma {:induction false} RunKeeps(s: State, steps: seq<Step>, t: State)
    requires Inv(s) && IsRun(s, steps, t)
    ensures Inv(t)
    decreases |steps|
  {
    if steps != [] {
      StepKeeps(s, steps[0]);
      RunKeeps(Take(s, steps[0]), steps[1..], t);
    }
  }

  lemma StartKeeps(asked: int)
    ensures Inv(NewBroker(asked))
  {
  }

  /** Under every interleaving no channel is sent to after it is closed, or closed twice. */
  lemma NeverPanics(asked: int, steps: seq<Step>, t: State, step: Step)
    requires IsRun(NewBroker(asked), steps, t) && Enabled(t, step) && Uses(t, step).Some?
    ensures Uses(t, step).value < |t.chans| && !t.chans[Uses(t, step).value].closed
  {
    StartKeeps(asked);
    RunKeeps(NewBroker(asked), steps, t);
    StepKeeps(t, step);
  }

  /** The publisher goroutine never waits on anything but its own channel. */
  lemma PublisherNeverStuck(asked: int, steps: seq<Step>, t: State)
    requires IsRun(NewBroker(asked), steps, t) && (t.pub == Taken || t.pub.Dispatching? || t.pub.Closing?)
    ensures exists step :: step in {Snapshot, OfferNext, EndDispatch, CloseNext, EndClose} && Enabled(t, step)
  {
    StartKeeps(asked);
    RunKeeps(NewBroker(asked), steps, t);
    if t.pub.Dispatching? && t.pub.at < |t.pub.targets| {
      assert t.pub.targets[t.pub.at] in t.pub.targets;
      assert Enabled(t, OfferNext);
    } else if t.pub.Closing? && t.pub.pos < t.pub.slice.len {
      assert t.pub.snap[t.pub.pos] in t.pub.snap;
      assert Enabled(t, CloseNext);
    } else {
      assert Enabled(t, Snapshot) || Enabled(t, EndDispatch) || Enabled(t, EndClose);
    }
  }

  ghost predicate Increasing(xs: seq<nat>) {
    forall i, j :: 0 <= i < j < |xs| ==> xs[i] < xs[j]
  }

  ghost predicate Consecutive(offers: seq<Offer>, since: nat) {
    forall j :: 0 <= j < |offers| ==> offers[j].event == since + j
  }

  /** `xs` has the events of the offers that were kept, and no others. */
  ghost predicate KeptExactly(offers: seq<Offer>, since: nat, xs: seq<nat>) {
    && (forall e :: e in xs ==> since <= e < since + |offers|)
    && (forall j :: 0 <= j < |offers| ==> (offers[j].kept <==> offers[j].event in xs))
  }

  lemma KeptExactlyNext(offers: seq<Offer>, last: Offer, since: nat, xs: seq<nat>)
    requires Consecutive(offers + [last], since) && KeptExactly(offers, since, xs)
    ensures Consecutive(offers, since)
    ensures KeptExactly(offers + [last], since, xs + if last.kept then [last.event] else [])
  {
    var more, ys := offers + [last], xs + if last.kept then [last.event] else [];
    assert more[|offers|] == last;
    forall j | 0 <= j < |more|
      ensures more[j].event == since + j
      ensures j < |offers| ==> offers[j] == more[j]
      ensures more[j].kept <==> more[j].event in ys
    {
      assert j < |offers| ==> offers[j] == more[j];
    }
  }

  lemma {:induction false} KeptInOrder(offers: seq<Offer>, since: nat)
    requires Consecutive(offers, since)
    ensures Increasing(Kept(offers)) && KeptExactly(offers, since, Kept(offers))
  {
    if offers != [] {
      var init, last := offers[..|offers| - 1], offers[|offers| - 1];
      KeptInOrder(init, since);
      assert offers == init + [last];
      KeptExactlyNext(init, last, since, Kept(init));
      IncreasingNext(Kept(init), last.event);
    }
  }

  lemma IncreasingNext(xs: seq<nat>, x: nat)
    requires Increasing(xs) && forall e :: e in xs ==> e < x
    ensures Increasing(xs + [x])
  {
    var all := xs + [x];
    forall i, j | 0 <= i < j < |all|
      ensures all[i] < all[j]
    {
      assert all[i] in xs;
    }
  }

  /** What a subscriber has received, in order. */
  function Received(ch: Chan): seq<nat>
    requires ch.got <= |Kept(ch.offers)|
  {
    Kept(ch.offers)[..ch.got]
  }

  /** A subscriber is offered, without a gap, the events dispatched from its subscription on;
      it receives them in order and never twice, less those dropped on a full buffer; and while
      it stays subscribed and the publisher is between events, none is missing. */
  lemma InOrderDelivery(asked: int, steps: seq<Step>, t: State, c: nat)
    requires IsRun(NewBroker(asked), steps, t) && c < |t.chans|
    ensures t.chans[c].got <= |Kept(t.chans[c].offers)| && Increasing(Received(t.chans[c]))
    ensures Consecutive(t.chans[c].offers, t.chans[c].since)
    ensures KeptExactly(t.chans[c].offers, t.chans[c].since, Kept(t.chans[c].offers))
    ensures NextEvent(t.chans[c]) <= t.dispatched
    ensures c in Subs(t) && t.pub in {Off, Idle, Taken} ==> NextEvent(t.chans[c]) == t.dispatched
  {
    StartKeeps(asked);
    RunKeeps(NewBroker(asked), steps, t);
    assert ChanOk(t, c);
    KeptInOrder(t.chans[c].offers, t.chans[c].since);
    var kept := Kept(t.chans[c].offers);
    assert forall i :: 0 <= i < t.chans[c].got ==> Received(t.chans[c])[i] == kept[i];
  }

  // ---------------------------------------------------------------- full buffers

  lemma {:induction false} RunKeepsBufSize(s: State, steps: seq<Step>, t: State)
    requires Inv(s) && IsRun(s, steps, t)
    ensures t.bufSize == s.bufSize
    decreases |steps|
  {
    if steps != [] {
      StepKeeps(s, steps[0]);
      RunKeepsBufSize(Take(s, steps[0]), steps[1..], t);
    }
  }

  /** In every reachable state buffers have the size asked for, or 64 if that is not positive,
      and an event was dropped only after as many before it were kept. */
  lemma DroppedOnlyWhenFull(asked: int, steps: seq<Step>, t: State, c: nat, j: nat)
    requires IsRun(NewBroker(asked), steps, t) && c < |t.chans| && j < |t.chans[c].offers|
    requires !t.chans[c].offers[j].kept
    ensures |Kept(t.chans[c].offers[..j])| >= if asked > 0 then asked else 64
  {
    StartKeeps(asked);
    RunKeeps(NewBroker(asked), steps, t);
    RunKeepsBufSize(NewBroker(asked), steps, t);
    assert ChanOk(t, c);
  }

  /** From every reachable state the event now offered joins what the channel keeps exactly when
      fewer events than its buffer holds are kept and unread; no other channel changes. */
  lemma OfferKeptIff(asked: int, steps: seq<Step>, s: State, c: nat)
    requires IsRun(NewBroker(asked), steps, s) && Enabled(s, OfferNext) && c < |s.chans|
    ensures SliceOk(s, s.list)
    ensures var before, after := s.chans[c], Take(s, OfferNext).chans[c];
            && after.got == before.got
            && if c != s.pub.targets[s.pub.at] then after == before
               else Kept(after.offers) == Kept(before.offers) +
                    if |Kept(before.offers)| - before.got < (if asked > 0 then asked else 64)
                    then [s.pub.event] else []
  {
    StartKeeps(asked);
    RunKeeps(NewBroker(asked), steps, s);
    RunKeepsBufSize(NewBroker(asked), steps, s);
    if c == s.pub.targets[s.pub.at] {
      KeptNext(s.chans[c], Offered(s, c).offers[|s.chans[c].offers|]);
    }
  }

  lemma {:induction false} RunKeepsQueue(s: State, steps: seq<Step>, t: State)
    requires Inv(s) && IsRun(s, steps, t) && s.queued <= s.bufSize
    ensures t.queued <= t.bufSize
    decreases |steps|
  {
    if steps != [] {
      StepKeeps(s, steps[0]);
      RunKeepsQueue(Take(s, steps[0]), steps[1..], t);
    }
  }

  /** The engine that publishes is held up exactly while a full buffer of events waits for the
      publisher goroutine, and never more wait. */
  lemma PublishWaitsIff(asked: int, steps: seq<Step>, t: State)
    requires IsRun(NewBroker(asked), steps, t)
    ensures t.queued <= if asked > 0 then asked else 64
    ensures t.pub != Off && !t.pubClosed ==>
              (Enabled(t, Publish) <==> t.queued != if asked > 0 then asked else 64)
  {
    StartKeeps(asked);
    RunKeepsBufSize(NewBroker(asked), steps, t);
    RunKeepsQueue(NewBroker(asked), steps, t);
  }

  // ---------------------------------------------------------------- closing

  /** The close that took `taken` is under way, or `c` has been closed. */
  ghost predicate ClosesOrClosed(s: State, taken: seq<nat>, c: nat) {
    c in taken && c < |s.chans| && ((s.pub.Closing? && s.pub.snap == taken) || s.chans[c].closed)
  }

  lemma StepClosesOn(s: State, step: Step, taken: seq<nat>, c: nat)
    requires Inv(s) && Enabled(s, step) && ClosesOrClosed(s, taken, c)
    ensures ClosesOrClosed(Take(s, step), taken, c)
  {
    assert ChanOk(s, c);
  }

  lemma {:induction false} RunClosesOn(s: State, steps: seq<Step>, t: State, taken: seq<nat>, c: nat)
    requires Inv(s) && IsRun(s, steps, t) && ClosesOrClosed(s, taken, c)
    ensures ClosesOrClosed(t, taken, c)
    decreases |steps|
  {
    if steps != [] {
      StepKeeps(s, steps[0]);
      StepClosesOn(s, steps[0], taken, c);
      RunClosesOn(Take(s, steps[0]), steps[1..], t, taken, c);
    }
  }

  /** When a publisher that has closed its channel is done, every channel that was on the list
      as it took it is closed, whoever subscribed or unsubscribed meanwhile. */
  lemma EveryoneIsClosed(s: State, steps: seq<Step>, t: State, c: nat)
    requires Inv(s) && Enabled(s, TakeSubs) && c in Subs(s) && IsRun(Take(s, TakeSubs), steps, t)
    requires !t.pub.Closing?
    ensures c < |t.chans| && t.chans[c].closed
  {
    StepKeeps(s, TakeSubs);
    RunClosesOn(Take(s, TakeSubs), steps, t, Subs(s), c);
  }

  // ---------------------------------------------------------------- no replay

  lemma {:induction false} RunConcat(s: State, a: seq<Step>, m: State, b: seq<Step>, t: State)
    requires IsRun(s, a, m) && IsRun(m, b, t)
    ensures IsRun(s, a + b, t)
    decreases |a|
  {
    if a == [] {
      assert a + b == b;
    } else {
      RunConcat(Take(s, a[0]), a[1..], m, b, t);
      assert (a + b)[0] == a[0] && (a + b)[1..] == a[1..] + b;
    }
  }

  lemma StepKeepsSince(s: State, step: Step, c: nat)
    requires Inv(s) && Enabled(s, step) && c < |s.chans|
    ensures c < |Take(s, step).chans| && Take(s, step).chans[c].since == s.chans[c].since
  {
  }

  lemma {:induction false} RunKeepsSince(s: State, steps: seq<Step>, t: State, c: nat)
    requires Inv(s) && IsRun(s, steps, t) && c < |s.chans|
    ensures c < |t.chans| && t.chans[c].since == s.chans[c].since
    decreases |steps|
  {
    if steps != [] {
      StepKeeps(s, steps[0]);
      StepKeepsSince(s, steps[0], c);
      RunKeepsSince(Take(s, steps[0]), steps[1..], t, c);
    }
  }

  /** Whatever happens after a subscription, the new channel's offers stay counted from the
      events dispatched when it was made. */
  lemma SubscribeRecords(s: State, room: nat, steps: seq<Step>, t: State)
    requires Inv(s) && IsRun(Take(s, Subscribe(room)), steps, t)
    ensures Inv(t) && |s.chans| < |t.chans| && t.chans[|s.chans|].since == s.dispatched
  {
    SubscribeKeeps(s, room);
    RunKeeps(Take(s, Subscribe(room)), steps, t);
    RunKeepsSince(Take(s, Subscribe(room)), steps, t, |s.chans|);
  }

  /** A run after a subscription in which the new channel is offered anything offers it only
      events published later exactly when, at the subscription, the publisher's channel was
      empty and no event was between the channel and its dispatch. */
  lemma NoReplayIff(s: State, room: nat, steps: seq<Step>, t: State)
    requires Inv(s) && IsRun(Take(s, Subscribe(room)), steps, t)
    requires |s.chans| < |t.chans| && t.chans[|s.chans|].offers != []
    ensures (forall offer :: offer in t.chans[|s.chans|].offers ==> offer.event >= Published(s)) <==>
            s.queued == 0 && s.pub != Taken
  {
    SubscribeRecords(s, room, steps, t);
    var offers := t.chans[|s.chans|].offers;
    assert ChanOk(t, |s.chans|);
    assert offers[0].event == s.dispatched && offers[0] in offers;
  }

  /** The dispatch in progress runs to its end without touching a channel it does not know. */
  lemma {:induction false} FinishDispatch(s: State, c: nat) returns (steps: seq<Step>, t: State)
    requires Inv(s) && s.pub.Dispatching? && c in Subs(s) && !ToOffer(s, c)
    ensures IsRun(s, steps, t) && Inv(t) && t.pub == Idle && t.queued == s.queued && t.dispatched == s.dispatched
    ensures c in Subs(t) && c < |s.chans| && c < |t.chans| && t.chans[c] == s.chans[c]
    decreases if s.pub.Dispatching? then |s.pub.targets| - s.pub.at else 0
  {
    if s.pub.at == |s.pub.targets| {
      StepKeeps(s, EndDispatch);
      t := Take(s, EndDispatch);
      assert IsRun(t, [], t);
      steps := [EndDispatch];
    } else {
      var target := s.pub.targets[s.pub.at];
      assert target in s.pub.targets && s.pub.targets[s.pub.at..][0] == target;
      var next := Take(s, OfferNext);
      StepKeeps(s, OfferNext);
      Advance(s.pub.targets, s.pub.at, c);
      steps, t := FinishDispatch(next, c);
      ConsRun(s, OfferNext, steps, t);
      steps := [OfferNext] + steps;
    }
  }

  /** An event the publisher has taken reaches a subscriber that has been offered nothing yet. */
  lemma TakenIsReceived(s: State, c: nat) returns (steps: seq<Step>, t: State)
    requires Inv(s) && s.pub == Taken && c in Subs(s) && c < |s.chans| && s.chans[c].offers == []
    ensures IsRun(s, steps, t) && GotEarlier(t, c, s.dispatched + 1)
  {
    var copied := Take(s, Snapshot);
    SnapshotKeeps(s);
    assert copied.pub.targets[0..] == Subs(s);
    steps, t := OfferIsReceived(copied, c);
    ConsRun(s, Snapshot, steps, t);
    steps := [Snapshot] + steps;
  }

  lemma OfferIsReceived(s: State, c: nat) returns (steps: seq<Step>, t: State)
    requires Inv(s) && ToOffer(s, c) && c < |s.chans| && s.chans[c].offers == []
    ensures IsRun(s, steps, t) && GotEarlier(t, c, s.dispatched)
  {
    var more, reached := PendingIsOffered(s, c);
    FirstIsKept(s, c);
    t := ReceiveFirst(reached, c);
    assert Kept(t.chans[c].offers)[0] < s.dispatched;
    RunConcat(s, more, reached, [Receive(c)], t);
    steps := more + [Receive(c)];
  }

  lemma ReceiveFirst(s: State, c: nat) returns (t: State)
    requires Inv(s) && c < |s.chans| && s.chans[c].got == 0 && Kept(s.chans[c].offers) != []
    ensures IsRun(s, [Receive(c)], t) && c < |t.chans| && t.chans[c] == s.chans[c].(got := 1)
  {
    t := Take(s, Receive(c));
    OneStep(s, Receive(c), t);
  }

  /** The buffer of a channel that has been offered nothing has room. */
  lemma FirstIsKept(s: State, c: nat)
    requires Inv(s) && ToOffer(s, c) && c < |s.chans| && s.chans[c].offers == []
    ensures Offered(s, c).got == 0 && Kept(Offered(s, c).offers) == [s.pub.event]
  {
    assert ChanOk(s, c);
    KeptNext(s.chans[c], Offer(s.pub.event, true));
  }

  /** The channel has received an event numbered below `bound`. */
  ghost predicate GotEarlier(t: State, c: nat, bound: nat) {
    c < |t.chans|
    && exists i :: 0 <= i < t.chans[c].got && i < |Kept(t.chans[c].offers)| && Kept(t.chans[c].offers)[i] < bound
  }

  lemma WaitingIsReceived(s: State, c: nat) returns (steps: seq<Step>, t: State)
    requires Inv(s) && (s.queued > 0 || s.pub == Taken)
    requires c in Subs(s) && c < |s.chans| && s.chans[c].offers == [] && !ToOffer(s, c)
    ensures IsRun(s, steps, t) && GotEarlier(t, c, s.dispatched + 1)
  {
    if s.pub == Taken {
      steps, t := TakenIsReceived(s, c);
    } else if s.pub == Idle {
      steps, t := IdleIsReceived(s, c);
    } else {
      var first, idle := FinishDispatch(s, c);
      var rest;
      rest, t := IdleIsReceived(idle, c);
      RunConcat(s, first, idle, rest, t);
      steps := first + rest;
    }
  }

  lemma IdleIsReceived(s: State, c: nat) returns (steps: seq<Step>, t: State)
    requires Inv(s) && s.queued > 0 && s.pub == Idle && c in Subs(s) && c < |s.chans| && s.chans[c].offers == []
    ensures IsRun(s, steps, t) && GotEarlier(t, c, s.dispatched + 1)
  {
    StepKeeps(s, TakeEvent);
    var rest;
    rest, t := TakenIsReceived(Take(s, TakeEvent), c);
    ConsRun(s, TakeEvent, rest, t);
    steps := [TakeEvent] + rest;
  }

  ghost predicate ReplayedBy(s: State, room: nat, steps: seq<Step>, t: State)
    requires Inv(s)
  {
    IsRun(Take(s, Subscribe(room)), steps, t) && GotEarlier(t, |s.chans|, Published(s))
  }

  /** A new subscriber can come to receive an event published before it subscribed exactly when
      an event is waiting in the publisher's channel, or taken from it and not yet dispatched,
      at the moment it subscribes. */
  lemma ReplayIff(s: State, room: nat)
    requires Inv(s)
    ensures (exists steps, t :: ReplayedBy(s, room, steps, t)) <==> s.queued > 0 || s.pub == Taken
  {
    var subscribed, c := Take(s, Subscribe(room)), |s.chans|;
    SubscribeKeeps(s, room);
    SubscribeList(s, room);
    if s.queued > 0 || s.pub == Taken {
      NotPending(s, c);
      assert c in Subs(subscribed) && !ToOffer(subscribed, c);
      var steps, t := WaitingIsReceived(subscribed, c);
      assert ReplayedBy(s, room, steps, t);
    } else if steps, t :| ReplayedBy(s, room, steps, t) {
      NothingEarlier(s, room, steps, t);
    }
  }

  lemma NothingEarlier(s: State, room: nat, steps: seq<Step>, t: State)
    requires Inv(s) && s.queued == 0 && s.pub != Taken && IsRun(Take(s, Subscribe(room)), steps, t)
    ensures !GotEarlier(t, |s.chans|, Published(s))
  {
    SubscribeRecords(s, room, steps, t);
    var ch := t.chans[|s.chans|];
    assert ChanOk(t, |s.chans|);
    KeptInOrder(ch.offers, ch.since);
    assert forall i :: 0 <= i < |Kept(ch.offers)| ==> Kept(ch.offers)[i] in Kept(ch.offers);
  }

  /** One subscriber, and event 0 waiting in the publisher's channel. */
  function OneWaiting(): State {
    State(1, [[], [0]], Slice(1, 1), Idle, 1, false, 0, [Chan(0, [], 0, false)])
  }

  /** Event 0 is about to be offered to the one subscriber. */
  function OneDispatched(): State {
    State(1, [[], [0]], Slice(1, 1), Dispatching(0, [0], 0), 0, false, 1, [Chan(0, [], 0, false)])
  }

  lemma Waits()
    ensures IsRun(OneWaiting(), [TakeEvent, Snapshot], OneDispatched())
  {
    var taken := Take(OneWaiting(), TakeEvent);
    assert Subs(taken) == [0];
    OneStep(taken, Snapshot, OneDispatched());
    ConsRun(OneWaiting(), TakeEvent, [Snapshot], OneDispatched());
  }

  lemma PublishedFirst()
    ensures IsRun(NewBroker(1), [Open, Publish, Subscribe(0)], OneWaiting())
  {
    var started := Take(NewBroker(1), Open);
    var waiting := Take(started, Publish);
    assert waiting.arrays[0][..0] + [0] + seq(0, _ => 0) == [0];
    assert Take(waiting, Subscribe(0)) == OneWaiting();
    OneStep(waiting, Subscribe(0), OneWaiting());
    ConsRun(started, Publish, [Subscribe(0)], OneWaiting());
    ConsRun(NewBroker(1), Open, [Publish, Subscribe(0)], OneWaiting());
  }

  lemma Reaches() returns (t: State)
    ensures IsRun(OneDispatched(), [OfferNext, Receive(0)], t)
    ensures |t.chans| == 1 && t.chans[0].got == 1 && Kept(t.chans[0].offers) == [0]
  {
    var offered := Take(OneDispatched(), OfferNext);
    KeptNext(OneDispatched().chans[0], Offer(0, true));
    assert offered.chans[0].offers == [] + [Offer(0, true)];
    t := Take(offered, Receive(0));
    OneStep(offered, Receive(0), t);
    ConsRun(OneDispatched(), OfferNext, [Receive(0)], t);
  }

  /** Such a run: event 0 is published, then a subscriber comes, and receives it. */
  lemma ReplayRun() returns (t: State)
    ensures IsRun(NewBroker(1), [Open, Publish, Subscribe(0)] + ([TakeEvent, Snapshot] + [OfferNext, Receive(0)]), t)
    ensures |t.chans| == 1 && t.chans[0].got == 1 && Kept(t.chans[0].offers) == [0]
  {
    PublishedFirst();
    Waits();
    t := Reaches();
    RunConcat(OneWaiting(), [TakeEvent, Snapshot], OneDispatched(), [OfferNext, Receive(0)], t);
    RunConcat(NewBroker(1), [Open, Publish, Subscribe(0)], OneWaiting(),
              [TakeEvent, Snapshot] + [OfferNext, Receive(0)], t);
  }

  // ---------------------------------------------------------------- after unsubscribing

  /** Off the list for good: what is not pending stays so and leaves no trace. */
  ghost predicate StaysOff(s: State, t: State, c: nat)
    requires c < |s.chans|
  {
    && c < |t.chans| && c !in Subs(t)
    && (!ToOffer(s, c) ==> !ToOffer(t, c) && t.chans[c].offers == s.chans[c].offers)
    && (!ToClose(s, c) ==> !ToClose(t, c) && t.chans[c].closed == s.chans[c].closed)
  }

  lemma ListStaysOff(s: State, step: Step, c: nat)
    requires Inv(s) && Enabled(s, step) && c < |s.chans| && c !in Subs(s) && (step.Subscribe? || step.Unsubscribe?)
    ensures StaysOff(s, Take(s, step), c)
  {
    if step.Subscribe? {
      SubscribeList(s, step.room);
    } else if IndexOf(Subs(s), step.c) < |Subs(s)| {
      SpliceList(s, IndexOf(Subs(s), step.c));
    }
  }

  lemma CopyStaysOff(s: State, step: Step, c: nat)
    requires Inv(s) && Enabled(s, step) && c < |s.chans| && c !in Subs(s) && (step == Snapshot || step == TakeSubs)
    ensures StaysOff(s, Take(s, step), c)
  {
    var t := Take(s, step);
    if step == Snapshot {
      assert t.pub.targets[0..] == Subs(s);
    } else {
      assert t.pub.snap[0..] == Subs(s);
    }
  }

  lemma AdvanceStaysOff(s: State, step: Step, c: nat)
    requires Inv(s) && Enabled(s, step) && c < |s.chans| && c !in Subs(s) && (step == OfferNext || step == CloseNext)
    ensures StaysOff(s, Take(s, step), c)
  {
    if step == OfferNext {
      Advance(s.pub.targets, s.pub.at, c);
      assert s.pub.targets[s.pub.at..][0] == s.pub.targets[s.pub.at];
    } else {
      Advance(s.pub.snap, s.pub.pos, c);
      assert s.pub.snap[s.pub.pos..][0] == s.pub.snap[s.pub.pos];
    }
  }

  lemma OtherStaysOff(s: State, step: Step, c: nat)
    requires Inv(s) && Enabled(s, step) && c < |s.chans| && c !in Subs(s) && MovesNoChannel(step)
    ensures StaysOff(s, Take(s, step), c)
  {
  }

  lemma StepStaysOff(s: State, step: Step, c: nat)
    requires Inv(s) && Enabled(s, step) && c < |s.chans| && c !in Subs(s)
    ensures StaysOff(s, Take(s, step), c)
  {
    match step
    case Subscribe(_) => ListStaysOff(s, step, c);
    case Unsubscribe(_) => ListStaysOff(s, step, c);
    case Snapshot => CopyStaysOff(s, step, c);
    case TakeSubs => CopyStaysOff(s, step, c);
    case OfferNext => AdvanceStaysOff(s, step, c);
    case CloseNext => AdvanceStaysOff(s, step, c);
    case _ => OtherStaysOff(s, step, c);
  }

  lemma {:induction false} RunStaysOff(s: State, steps: seq<Step>, t: State, c: nat)
    requires Inv(s) && IsRun(s, steps, t) && c < |s.chans| && c !in Subs(s)
    ensures c < |t.chans|
    ensures !ToOffer(s, c) ==> t.chans[c].offers == s.chans[c].offers
    ensures !ToClose(s, c) ==> t.chans[c].closed == s.chans[c].closed
    decreases |steps|
  {
    if steps != [] {
      StepKeeps(s, steps[0]);
      StepStaysOff(s, steps[0], c);
      RunStaysOff(Take(s, steps[0]), steps[1..], t, c);
    }
  }

  /** Offering to another channel first changes nothing for `c`. */
  lemma OfferElsewhere(s: State, c: nat)
    requires Inv(s) && ToOffer(s, c) && c < |s.chans| && Enabled(s, OfferNext) && s.pub.targets[s.pub.at] != c
    ensures Inv(Take(s, OfferNext)) && ToOffer(Take(s, OfferNext), c)
    ensures c < |Take(s, OfferNext).chans| && Offered(Take(s, OfferNext), c) == Offered(s, c)
  {
    StepKeeps(s, OfferNext);
    Advance(s.pub.targets, s.pub.at, c);
  }

  lemma CanOffer(s: State, c: nat)
    requires Inv(s) && ToOffer(s, c)
    ensures c < |s.chans| && Enabled(s, OfferNext)
  {
    NotPending(s, c);
    assert s.pub.targets[s.pub.at] in s.pub.targets;
  }

  lemma {:induction false} PendingIsOffered(s: State, c: nat) returns (steps: seq<Step>, t: State)
    requires Inv(s) && ToOffer(s, c)
    ensures IsRun(s, steps, t) && Inv(t) && c < |s.chans| && c < |t.chans| && t.chans[c] == Offered(s, c)
    decreases if s.pub.Dispatching? then |s.pub.targets| - s.pub.at else 0
  {
    CanOffer(s, c);
    var next := Take(s, OfferNext);
    if s.pub.targets[s.pub.at] == c {
      StepKeeps(s, OfferNext);
      OneStep(s, OfferNext, next);
      steps, t := [OfferNext], next;
    } else {
      OfferElsewhere(s, c);
      steps, t := PendingIsOffered(next, c);
      ConsRun(s, OfferNext, steps, t);
      steps := [OfferNext] + steps;
    }
  }

  ghost predicate OfferedBy(s: State, steps: seq<Step>, t: State, c: nat) {
    IsRun(s, steps, t) && c < |s.chans| && c < |t.chans| && t.chans[c].offers != s.chans[c].offers
  }

  ghost predicate ClosedBy(s: State, steps: seq<Step>, t: State, c: nat) {
    IsRun(s, steps, t) && c < |t.chans| && t.chans[c].closed
  }

  /** Once unsubscribed a channel can still be offered an event exactly when a `dispatch` has
      already copied the list it was on and not yet reached it. */
  lemma OfferedAfterUnsubscribeIff(s: State, c: nat)
    requires Inv(s) && c < |s.chans| && c !in Subs(s)
    ensures (exists steps, t :: OfferedBy(s, steps, t, c)) <==> ToOffer(s, c)
  {
    if ToOffer(s, c) {
      var steps, t := PendingIsOffered(s, c);
      assert OfferedBy(s, steps, t, c);
    } else if steps, t :| OfferedBy(s, steps, t, c) {
      RunStaysOff(s, steps, t, c);
    }
  }

  /** One offer more, of `event`. */
  ghost predicate OneMore(before: seq<Offer>, after: seq<Offer>, event: nat) {
    |after| == |before| + 1 && after[..|before|] == before && after[|before|].event == event
  }

  /** Neither offered to nor forgotten by the dispatch in progress. */
  ghost predicate StillToOffer(s: State, t: State, c: nat)
    requires c < |s.chans| && s.pub.Dispatching?
  {
    ToOffer(t, c) && t.pub.event == s.pub.event && c < |t.chans| && t.chans[c].offers == s.chans[c].offers
  }

  lemma OfferGoesOn(s: State, c: nat)
    requires Inv(s) && Enabled(s, OfferNext) && ToOffer(s, c) && c < |s.chans| && s.pub.targets[s.pub.at] != c
    ensures StillToOffer(s, Take(s, OfferNext), c)
  {
    Advance(s.pub.targets, s.pub.at, c);
  }

  lemma DispatchGoesOn(s: State, step: Step, c: nat)
    requires Inv(s) && Enabled(s, step) && ToOffer(s, c) && c < |s.chans|
    requires step == OfferNext ==> s.pub.targets[s.pub.at] != c
    ensures StillToOffer(s, Take(s, step), c)
  {
    if step == OfferNext {
      OfferGoesOn(s, c);
    }
  }

  /** Once unsubscribed a channel is offered at most one event more, that of the dispatch in
      progress. */
  lemma {:induction false} OfferedAtMostOnce(s: State, steps: seq<Step>, t: State, c: nat)
    requires Inv(s) && IsRun(s, steps, t) && c < |s.chans| && c !in Subs(s)
    ensures c < |t.chans|
    ensures t.chans[c].offers == s.chans[c].offers ||
            (ToOffer(s, c) && OneMore(s.chans[c].offers, t.chans[c].offers, s.pub.event))
    decreases |steps|
  {
    if steps == [] || !ToOffer(s, c) {
      RunStaysOff(s, steps, t, c);
    } else {
      var next := Take(s, steps[0]);
      StepKeeps(s, steps[0]);
      StepStaysOff(s, steps[0], c);
      if steps[0] == OfferNext && s.pub.targets[s.pub.at] == c {
        Advance(s.pub.targets, s.pub.at, c);
        RunStaysOff(next, steps[1..], t, c);
      } else {
        DispatchGoesOn(s, steps[0], c);
        OfferedAtMostOnce(next, steps[1..], t, c);
      }
    }
  }

  /** Such a state is reachable: the list is copied, then the subscriber leaves. */
  lemma UnsubscribeWhileDispatching() returns (s: State)
    ensures IsRun(NewBroker(1), [Open, Publish, Subscribe(0)] + ([TakeEvent, Snapshot] + [Unsubscribe(0)]), s)
    ensures 0 < |s.chans| && 0 !in Subs(s) && ToOffer(s, 0)
  {
    PublishedFirst();
    Waits();
    s := Take(OneDispatched(), Unsubscribe(0));
    assert Subs(OneDispatched()) == [0];
    assert s.pub.targets[0..][0] == 0;
    OneStep(OneDispatched(), Unsubscribe(0), s);
    RunConcat(OneWaiting(), [TakeEvent, Snapshot], OneDispatched(), [Unsubscribe(0)], s);
    RunConcat(NewBroker(1), [Open, Publish, Subscribe(0)], OneWaiting(), [TakeEvent, Snapshot] + [Unsubscribe(0)], s);
  }

  lemma {:induction false} PendingIsClosed(s: State, c: nat) returns (steps: seq<Step>, t: State)
    requires Inv(s) && ToClose(s, c)
    ensures IsRun(s, steps, t) && c < |t.chans| && t.chans[c].closed
    decreases if s.pub.Closing? then s.pub.slice.len - s.pub.pos else 0
  {
    var target := s.pub.snap[s.pub.pos];
    assert target in s.pub.snap;
    var next := Take(s, CloseNext);
    Advance(s.pub.snap, s.pub.pos, c);
    if c == target {
      OneStep(s, CloseNext, next);
      steps, t := [CloseNext], next;
    } else {
      StepKeeps(s, CloseNext);
      steps, t := PendingIsClosed(next, c);
      ConsRun(s, CloseNext, steps, t);
      steps := [CloseNext] + steps;
    }
  }

  /** Once unsubscribed, an open channel can still be closed exactly when a `closeSubs` has
      already taken the list it was on and not yet reached it. */
  lemma ClosedAfterUnsubscribeIff(s: State, c: nat)
    requires Inv(s) && c < |s.chans| && c !in Subs(s) && !s.chans[c].closed
    ensures (exists steps, t :: ClosedBy(s, steps, t, c)) <==> ToClose(s, c)
  {
    if ToClose(s, c) {
      var steps, t := PendingIsClosed(s, c);
      assert ClosedBy(s, steps, t, c);
    } else if steps, t :| ClosedBy(s, steps, t, c) {
      RunStaysOff(s, steps, t, c);
    }
  }

  /** The list of the one subscriber is about to be closed. */
  function OneClosing(): State {
    State(1, [[], [0]], NIL, Closing(Slice(1, 1), 0, [0]), 0, true, 0, [Chan(0, [], 0, false)])
  }

  lemma Closes()
    ensures IsRun(NewBroker(1), [Subscribe(0), Open, ClosePub, TakeSubs], OneClosing())
  {
    var s1 := Take(NewBroker(1), Subscribe(0));
    assert NewBroker(1).arrays[0][..0] + [0] + seq(0, _ => 0) == [0];
    assert s1.arrays == [[], [0]];
    var s3 := Take(Take(s1, Open), ClosePub);
    assert Subs(s3) == [0];
    OneStep(s3, TakeSubs, OneClosing());
    ConsRun(Take(s1, Open), ClosePub, [TakeSubs], OneClosing());
    ConsRun(s1, Open, [ClosePub, TakeSubs], OneClosing());
    ConsRun(NewBroker(1), Subscribe(0), [Open, ClosePub, TakeSubs], OneClosing());
  }

  /** Such a state is reachable: the list is taken, then the subscriber leaves. */
  lemma UnsubscribeTooLate() returns (s: State)
    ensures IsRun(NewBroker(1), [Subscribe(0), Open, ClosePub, TakeSubs] + [Unsubscribe(0)], s)
    ensures 0 < |s.chans| && 0 !in Subs(s) && !s.chans[0].closed && ToClose(s, 0)
  {
    Closes();
    s := Take(OneClosing(), Unsubscribe(0));
    OneStep(OneClosing(), Unsubscribe(0), s);
    RunConcat(NewBroker(1), [Subscribe(0), Open, ClosePub, TakeSubs], OneClosing(), [Unsubscribe(0)], s);
    assert s.pub.snap[0..][0] == 0;
  }

  lemma OneStep(s: State, step: Step, t: State)
    requires SliceOk(s, s.list) && Enabled(s, step) && t == Take(s, step)
    ensures IsRun(s, [step], t)
  {
    assert IsRun(t, [], t);
    assert [step][1..] == [];
  }

  lemma ConsRun(s: State, step: Step, rest: seq<Step>, t: State)
    requires SliceOk(s, s.list) && Enabled(s, step) && IsRun(Take(s, step), rest, t)
    ensures IsRun(s, [step] + rest, t)
  {
    assert ([step] + rest)[1..] == rest;
  }
}

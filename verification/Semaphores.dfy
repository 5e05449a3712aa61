/** The three semaphores of the orchestrator (global, then cloud, then credential) as a step
    machine over any number of workers, with cancellation. */
module Semaphores {

  /** A worker's place in `acquire`, its work, and the returned `release`. `DropCred`,
      `DropCloud` and `DropGlobal` still have to take their token back out of the channel;
      a cancelled `acquire` joins the release where its own tokens begin. */
  datatype Place = Start | HasGlobal | Looked | HasCloud | Running | DropCred | DropCloud | DropGlobal | Done

  /** `cs` and `crs` are the channels found under the mutex. */
  datatype Worker = Worker(cloud: string, cred: string, place: Place, cs: nat, crs: nat)

  datatype Caps = Caps(global: int, perCloud: int, perCred: int)

  /** Channel 0 is the global one; the others are made on first use. A channel is its capacity
      and the number of tokens in its buffer. */
  datatype State = State(limits: Caps, caps: seq<int>, tokens: seq<nat>, perCloud: map<string, nat>,
                         perCred: map<string, nat>, cancelled: bool, workers: seq<Worker>)

  function ResolveCaps(asked: Caps, numCPU: int): (r: Caps)
    requires numCPU >= 1
    ensures r.global >= 1 && r.perCloud >= 1 && r.perCred >= 1
    ensures asked.global >= 1 ==> r.global == asked.global
    ensures asked.perCloud >= 1 ==> r.perCloud == asked.perCloud
    ensures asked.perCred >= 1 ==> r.perCred == asked.perCred
    ensures asked.global <= 0 ==> r.global == numCPU
    ensures asked.perCloud <= 0 ==> r.perCloud == 8
    ensures asked.perCred <= 0 ==> r.perCred == 4
  {
    Caps(if asked.global <= 0 then numCPU else asked.global,
         if asked.perCloud <= 0 then 8 else asked.perCloud,
         if asked.perCred <= 0 then 4 else asked.perCred)
  }

  function NewSemaphores(limits: Caps, workers: seq<Worker>): State {
    State(limits, [limits.global], [0], map[], map[], false, workers)
  }

  // ---------------------------------------------------------------- steps

  /** Everything between locking and unlocking the mutex is the one step `Lookup`. */
  datatype Step = CancelAll | TakeGlobal(i: nat) | Lookup(i: nat) | TakeCloud(i: nat) | TakeCred(i: nat)
                | GiveUp(i: nat)
                | Finish(i: nat) | ReturnCred(i: nat) | ReturnCloud(i: nat) | ReturnGlobal(i: nat)

  predicate HasRoom(s: State, c: nat) {
    c < |s.tokens| && c < |s.caps| && s.tokens[c] < s.caps[c]
  }

  predicate HasToken(s: State, c: nat) {
    c < |s.tokens| && s.tokens[c] > 0
  }

  predicate At(s: State, i: nat, place: Place) {
    i < |s.workers| && s.workers[i].place == place
  }

  predicate Enabled(s: State, step: Step) {
    match step
    case CancelAll => !s.cancelled
    case TakeGlobal(i) => At(s, i, Start) && HasRoom(s, 0)
    case Lookup(i) => At(s, i, HasGlobal)
    case TakeCloud(i) => At(s, i, Looked) && HasRoom(s, s.workers[i].cs)
    case TakeCred(i) => At(s, i, HasCloud) && HasRoom(s, s.workers[i].crs)
    case GiveUp(i) => s.cancelled && (At(s, i, Start) || At(s, i, Looked) || At(s, i, HasCloud))
    case Finish(i) => At(s, i, Running)
    case ReturnCred(i) => At(s, i, DropCred) && HasToken(s, s.workers[i].crs)
    case ReturnCloud(i) => At(s, i, DropCloud) && HasToken(s, s.workers[i].cs)
    case ReturnGlobal(i) => At(s, i, DropGlobal) && HasToken(s, 0)
  }

  function Go(s: State, i: nat, place: Place): State
    requires i < |s.workers|
  {
    s.(workers := s.workers[i := s.workers[i].(place := place)])
  }

  function Send(s: State, c: nat): State
    requires c < |s.tokens|
  {
    s.(tokens := s.tokens[c := s.tokens[c] + 1])
  }

  function Receive(s: State, c: nat): State
    requires HasToken(s, c)
  {
    s.(tokens := s.tokens[c := s.tokens[c] - 1])
  }

  function WithCloud(s: State, cloud: string): State {
    if cloud in s.perCloud then s
    else s.(perCloud := s.perCloud[cloud := |s.tokens|], tokens := s.tokens + [0], caps := s.caps + [s.limits.perCloud])
  }

  function WithCred(s: State, cred: string): State {
    if cred in s.perCred then s
    else s.(perCred := s.perCred[cred := |s.tokens|], tokens := s.tokens + [0], caps := s.caps + [s.limits.perCred])
  }

  function LookedUp(s: State, i: nat): State
    requires i < |s.workers|
  {
    var w := s.workers[i];
    var t := WithCred(WithCloud(s, w.cloud), w.cred);
    t.(workers := s.workers[i := Worker(w.cloud, w.cred, Looked, t.perCloud[w.cloud], t.perCred[w.cred])])
  }

  function Take(s: State, step: Step): State
    requires Enabled(s, step)
  {
    match step
    case CancelAll => s.(cancelled := true)
    case TakeGlobal(i) => Go(Send(s, 0), i, HasGlobal)
    case Lookup(i) => LookedUp(s, i)
    case TakeCloud(i) => Go(Send(s, s.workers[i].cs), i, HasCloud)
    case TakeCred(i) => Go(Send(s, s.workers[i].crs), i, Running)
    case GiveUp(i) =>
      Go(s, i, match s.workers[i].place case Start => Done case Looked => DropGlobal case _ => DropCloud)
    case Finish(i) => Go(s, i, DropCred)
    case ReturnCred(i) => Go(Receive(s, s.workers[i].crs), i, DropCloud)
    case ReturnCloud(i) => Go(Receive(s, s.workers[i].cs), i, DropGlobal)
    case ReturnGlobal(i) => Go(Receive(s, 0), i, Done)
  }

  // ---------------------------------------------------------------- the invariant

  predicate HoldsGlobal(w: Worker) {
    w.place != Start && w.place != Done
  }

  predicate HoldsCloud(w: Worker) {
    w.place == HasCloud || w.place == Running || w.place == DropCred || w.place == DropCloud
  }

  predicate HoldsCred(w: Worker) {
    w.place == Running || w.place == DropCred
  }

  predicate HoldsChannel(w: Worker, c: nat) {
    (c == 0 && HoldsGlobal(w)) || (HoldsCloud(w) && w.cs == c) || (HoldsCred(w) && w.crs == c)
  }

  function CountIf(ws: seq<Worker>, p: Worker -> bool): nat {
    if ws == [] then 0 else CountIf(ws[..|ws| - 1], p) + if p(ws[|ws| - 1]) then 1 else 0
  }

  function Holding(c: nat): Worker -> bool {
    (w: Worker) => HoldsChannel(w, c)
  }

  function Busy(): Worker -> bool {
    (w: Worker) => w.place == Running
  }

  function BusyIn(cloud: string): Worker -> bool {
    (w: Worker) => w.place == Running && w.cloud == cloud
  }

  function BusyWith(cred: string): Worker -> bool {
    (w: Worker) => w.place == Running && w.cred == cred
  }

  function Holders(ws: seq<Worker>, c: nat): nat {
    CountIf(ws, Holding(c))
  }

  ghost predicate Balanced(s: State, c: int) {
    0 <= c < |s.tokens| == |s.caps| && s.tokens[c] == Holders(s.workers, c) && s.tokens[c] <= s.caps[c]
  }

  /** Past the lookup a worker refers to the one channel of its cloud and of its credential. */
  ghost predicate Knows(s: State, w: Worker) {
    w.place in {Looked, HasCloud, Running, DropCred, DropCloud, DropGlobal} ==>
      w.cloud in s.perCloud && w.cs == s.perCloud[w.cloud] && w.cred in s.perCred && w.crs == s.perCred[w.cred]
  }

  ghost predicate CloudChannels(s: State) {
    && (forall k :: k in s.perCloud ==> 0 < s.perCloud[k] < |s.caps| && s.caps[s.perCloud[k]] == s.limits.perCloud)
    && (forall k, l :: k in s.perCloud && l in s.perCloud && k != l ==> s.perCloud[k] != s.perCloud[l])
  }

  ghost predicate CredChannels(s: State) {
    && (forall k :: k in s.perCred ==> 0 < s.perCred[k] < |s.caps| && s.caps[s.perCred[k]] == s.limits.perCred)
    && (forall k, l :: k in s.perCred && l in s.perCred && k != l ==> s.perCred[k] != s.perCred[l])
  }

  ghost predicate Channels(s: State) {
    && |s.tokens| == |s.caps| >= 1 && s.caps[0] == s.limits.global
    && CloudChannels(s) && CredChannels(s)
    && (forall k, l :: k in s.perCloud && l in s.perCred ==> s.perCloud[k] != s.perCred[l])
  }

  ghost predicate AllBalanced(s: State) {
    forall c :: 0 <= c < |s.tokens| ==> Balanced(s, c)
  }

  ghost predicate AllKnow(s: State) {
    forall i :: 0 <= i < |s.workers| ==> Knows(s, s.workers[i])
  }

  ghost predicate Inv(s: State) {
    Channels(s) && AllBalanced(s) && AllKnow(s)
  }

  lemma {:induction false} CountUpdate(ws: seq<Worker>, p: Worker -> bool, i: nat, w: Worker)
    requires i < |ws|
    ensures CountIf(ws[i := w], p) == CountIf(ws, p) + (if p(w) then 1 else 0) - if p(ws[i]) then 1 else 0
  {
    var init := ws[..|ws| - 1];
    if i < |ws| - 1 {
      assert ws[i := w][..|ws| - 1] == init[i := w];
      CountUpdate(init, p, i, w);
    } else {
      assert ws[i := w][..|ws| - 1] == init;
    }
  }

  lemma {:induction false} CountNone(ws: seq<Worker>, p: Worker -> bool)
    requires forall i :: 0 <= i < |ws| ==> !p(ws[i])
    ensures CountIf(ws, p) == 0
  {
    if ws != [] {
      var init := ws[..|ws| - 1];
      assert forall i :: 0 <= i < |init| ==> init[i] == ws[i];
      CountNone(init, p);
    }
  }

  lemma {:induction false} CountSome(ws: seq<Worker>, p: Worker -> bool, i: nat)
    requires i < |ws| && p(ws[i])
    ensures CountIf(ws, p) > 0
  {
    if i < |ws| - 1 {
      CountSome(ws[..|ws| - 1], p, i);
    }
  }

  lemma {:induction false} CountAtMost(ws: seq<Worker>, p: Worker -> bool, q: Worker -> bool)
    requires forall i :: 0 <= i < |ws| && p(ws[i]) ==> q(ws[i])
    ensures CountIf(ws, p) <= CountIf(ws, q)
  {
    if ws != [] {
      var init := ws[..|ws| - 1];
      assert forall i :: 0 <= i < |init| ==> init[i] == ws[i];
      CountAtMost(init, p, q);
    }
  }

  /** Only channel `c`, if any, is held by one more or one less. */
  ghost predicate Moves(v: Worker, w: Worker, c: nat, delta: int) {
    forall d: nat :: (if HoldsChannel(w, d) then 1 else 0) - (if HoldsChannel(v, d) then 1 else 0)
                     == if d == c then delta else 0
  }

  lemma MoveBalances(s: State, i: nat, w: Worker, c: nat, delta: int)
    requires AllBalanced(s) && i < |s.workers| && c < |s.tokens| == |s.caps|
    requires Moves(s.workers[i], w, c, delta) && 0 <= s.tokens[c] + delta <= s.caps[c]
    ensures AllBalanced(s.(tokens := s.tokens[c := s.tokens[c] + delta], workers := s.workers[i := w]))
  {
    var t := s.(tokens := s.tokens[c := s.tokens[c] + delta], workers := s.workers[i := w]);
    forall d | 0 <= d < |t.tokens|
      ensures Balanced(t, d)
    {
      assert Balanced(s, d);
      HoldersUpdate(s.workers, d, i, w);
    }
  }

  lemma HoldersUpdate(ws: seq<Worker>, c: nat, i: nat, w: Worker)
    requires i < |ws|
    ensures Holders(ws[i := w], c)
        == Holders(ws, c) + (if HoldsChannel(w, c) then 1 else 0) - if HoldsChannel(ws[i], c) then 1 else 0
  {
    CountUpdate(ws, Holding(c), i, w);
  }

  lemma GoKnows(s: State, t: State, i: nat, w: Worker)
    requires AllKnow(s) && i < |s.workers| && t.workers == s.workers[i := w]
    requires t.perCloud == s.perCloud && t.perCred == s.perCred && Knows(s, w)
    ensures AllKnow(t)
  {
    forall k | 0 <= k < |t.workers|
      ensures Knows(t, t.workers[k])
    {
      assert Knows(s, s.workers[k]);
    }
  }

  /** The channel a worker's step moves a token in or out of, and by how much. */
  function Touched(w: Worker, step: Step): (nat, int) {
    match step
    case TakeGlobal(_) => (0, 1)
    case TakeCloud(_) => (w.cs, 1)
    case TakeCred(_) => (w.crs, 1)
    case ReturnCred(_) => (w.crs, -1)
    case ReturnCloud(_) => (w.cs, -1)
    case ReturnGlobal(_) => (0, -1)
    case _ => (0, 0)
  }

  predicate OneWorker(step: Step) {
    !step.CancelAll? && !step.Lookup?
  }

  /** The step moves its token in or out of the one channel it touches. */
  ghost predicate MovesToken(s: State, step: Step)
    requires Enabled(s, step) && OneWorker(step)
  {
    && Moves(s.workers[step.i], Take(s, step).workers[step.i],
             Touched(s.workers[step.i], step).0, Touched(s.workers[step.i], step).1)
    && Knows(s, Take(s, step).workers[step.i])
  }

  predicate TouchesGlobal(step: Step) {
    step.TakeGlobal? || step.ReturnGlobal?
  }

  predicate TouchesCloud(step: Step) {
    step.TakeCloud? || step.ReturnCloud?
  }

  predicate TouchesCred(step: Step) {
    step.TakeCred? || step.ReturnCred?
  }

  lemma GlobalMoves(s: State, step: Step)
    requires Enabled(s, step) && TouchesGlobal(step) && Knows(s, s.workers[step.i])
        && DistinctChannels(s, s.workers[step.i])
    ensures MovesToken(s, step)
  {
  }

  lemma CloudMoves(s: State, step: Step)
    requires Enabled(s, step) && TouchesCloud(step) && Knows(s, s.workers[step.i])
        && DistinctChannels(s, s.workers[step.i])
    ensures MovesToken(s, step)
  {
  }

  lemma CredMoves(s: State, step: Step)
    requires Enabled(s, step) && TouchesCred(step) && Knows(s, s.workers[step.i])
        && DistinctChannels(s, s.workers[step.i])
    ensures MovesToken(s, step)
  {
  }

  lemma NothingMoves(s: State, step: Step)
    requires Enabled(s, step) && (step.GiveUp? || step.Finish?) && Knows(s, s.workers[step.i])
    ensures MovesToken(s, step)
  {
  }

  lemma StepMoves(s: State, step: Step)
    requires Enabled(s, step) && OneWorker(step) && Knows(s, s.workers[step.i])
        && DistinctChannels(s, s.workers[step.i])
    ensures MovesToken(s, step)
  {
    if TouchesGlobal(step) {
      GlobalMoves(s, step);
    } else if TouchesCloud(step) {
      CloudMoves(s, step);
    } else if TouchesCred(step) {
      CredMoves(s, step);
    } else {
      NothingMoves(s, step);
    }
  }

  ghost predicate DistinctChannels(s: State, w: Worker) {
    w.cloud in s.perCloud && w.cs == s.perCloud[w.cloud] && w.cred in s.perCred && w.crs == s.perCred[w.cred] ==>
      0 != w.cs && w.cs != w.crs && w.crs != 0
  }

  lemma StepShape(s: State, step: Step)
    requires Enabled(s, step) && OneWorker(step) && |s.tokens| >= 1
    requires Touched(s.workers[step.i], step).0 < |s.tokens|
    requires s.tokens[Touched(s.workers[step.i], step).0] + Touched(s.workers[step.i], step).1 >= 0
    ensures var c, delta := Touched(s.workers[step.i], step).0, Touched(s.workers[step.i], step).1;
            Take(s, step) == s.(tokens := s.tokens[c := s.tokens[c] + delta],
                                workers := s.workers[step.i := Take(s, step).workers[step.i]])
  {
    assert s.tokens == s.tokens[0 := s.tokens[0]];
  }

  lemma StepBounds(s: State, step: Step)
    requires Inv(s) && Enabled(s, step) && OneWorker(step)
    ensures var c, delta := Touched(s.workers[step.i], step).0, Touched(s.workers[step.i], step).1;
            c < |s.tokens| && 0 <= s.tokens[c] + delta <= s.caps[c]
  {
    var c := Touched(s.workers[step.i], step).0;
    if c < |s.tokens| {
      assert Balanced(s, c);
    }
  }

  /** A lookup leaves every existing channel, and every worker's channels, as they were. */
  ghost predicate Extends(s: State, t: State) {
    && t.workers == s.workers && t.limits == s.limits && s.tokens <= t.tokens && s.caps <= t.caps
    && (forall k :: k in s.perCloud ==> k in t.perCloud && t.perCloud[k] == s.perCloud[k])
    && (forall k :: k in s.perCred ==> k in t.perCred && t.perCred[k] == s.perCred[k])
  }

  lemma NobodyHolds(s: State, c: nat)
    requires Inv(s) && c >= |s.tokens|
    ensures Holders(s.workers, c) == 0
  {
    forall i | 0 <= i < |s.workers|
      ensures !HoldsChannel(s.workers[i], c)
    {
      assert Knows(s, s.workers[i]);
    }
    CountNone(s.workers, Holding(c));
  }

  lemma ExtendsKnows(s: State, t: State)
    requires AllKnow(s) && Extends(s, t)
    ensures AllKnow(t)
  {
    forall i | 0 <= i < |t.workers|
      ensures Knows(t, t.workers[i])
    {
      assert Knows(s, s.workers[i]);
    }
  }

  lemma NewChannelBalanced(s: State, t: State, cap: int)
    requires Inv(s) && cap >= 0 && t.workers == s.workers && t.tokens == s.tokens + [0] && t.caps == s.caps + [cap]
    ensures AllBalanced(t)
  {
    NobodyHolds(s, |s.tokens|);
    forall c | 0 <= c < |t.tokens|
      ensures Balanced(t, c)
    {
      assert c < |s.tokens| ==> Balanced(s, c);
    }
  }

  lemma CloudChannelsStay(s: State, t: State)
    requires CloudChannels(s) && t.perCloud == s.perCloud && t.limits == s.limits && s.caps <= t.caps
    ensures CloudChannels(t)
  {
  }

  lemma CredChannelsStay(s: State, t: State)
    requires CredChannels(s) && t.perCred == s.perCred && t.limits == s.limits && s.caps <= t.caps
    ensures CredChannels(t)
  {
  }

  lemma NewCloudChannel(s: State, cloud: string)
    requires Channels(s) && cloud !in s.perCloud
    ensures Channels(WithCloud(s, cloud)) && Extends(s, WithCloud(s, cloud)) && cloud in WithCloud(s, cloud).perCloud
  {
    CredChannelsStay(s, WithCloud(s, cloud));
    assert CloudChannels(WithCloud(s, cloud));
  }

  lemma NewCredChannel(s: State, cred: string)
    requires Channels(s) && cred !in s.perCred
    ensures Channels(WithCred(s, cred)) && Extends(s, WithCred(s, cred)) && cred in WithCred(s, cred).perCred
  {
    CloudChannelsStay(s, WithCred(s, cred));
    assert CredChannels(WithCred(s, cred));
  }

  lemma ExtendsKeeps(s: State, t: State, cap: int)
    requires Inv(s) && Channels(t) && Extends(s, t) && cap >= 0
    requires t.tokens == s.tokens + [0] && t.caps == s.caps + [cap]
    ensures Inv(t)
  {
    NewChannelBalanced(s, t, cap);
    ExtendsKnows(s, t);
  }

  lemma WithCloudKeeps(s: State, cloud: string)
    requires Inv(s) && s.limits.perCloud >= 0
    ensures Inv(WithCloud(s, cloud)) && Extends(s, WithCloud(s, cloud)) && cloud in WithCloud(s, cloud).perCloud
  {
    if cloud !in s.perCloud {
      NewCloudChannel(s, cloud);
      ExtendsKeeps(s, WithCloud(s, cloud), s.limits.perCloud);
    }
  }

  lemma WithCredKeeps(s: State, cred: string)
    requires Inv(s) && s.limits.perCred >= 0
    ensures Inv(WithCred(s, cred)) && Extends(s, WithCred(s, cred)) && cred in WithCred(s, cred).perCred
  {
    if cred !in s.perCred {
      NewCredChannel(s, cred);
      ExtendsKeeps(s, WithCred(s, cred), s.limits.perCred);
    }
  }

  ghost predicate ValidLimits(limits: Caps) {
    limits.global >= 0 && limits.perCloud >= 0 && limits.perCred >= 0
  }

  lemma LookupKeeps(s: State, i: nat)
    requires Inv(s) && ValidLimits(s.limits) && At(s, i, HasGlobal)
    ensures Inv(LookedUp(s, i))
  {
    var w := s.workers[i];
    WithCloudKeeps(s, w.cloud);
    WithCredKeeps(WithCloud(s, w.cloud), w.cred);
    var t := WithCred(WithCloud(s, w.cloud), w.cred);
    FoundKeeps(t, i, Worker(w.cloud, w.cred, Looked, t.perCloud[w.cloud], t.perCred[w.cred]));
  }

  lemma LookupMovesNothing(v: Worker, w: Worker)
    requires v.place == HasGlobal && w.place == Looked
    ensures Moves(v, w, 0, 0)
  {
  }

  lemma FoundKeeps(t: State, i: nat, found: Worker)
    requires Inv(t) && At(t, i, HasGlobal) && found.place == Looked && Knows(t, found)
    ensures Inv(t.(workers := t.workers[i := found]))
  {
    assert Balanced(t, 0);
    assert t.tokens == t.tokens[0 := t.tokens[0] + 0];
    LookupMovesNothing(t.workers[i], found);
    MoveBalances(t, i, found, 0, 0);
    GoKnows(t, t.(workers := t.workers[i := found]), i, found);
  }

  lemma OneWorkerKeeps(s: State, step: Step)
    requires Inv(s) && Enabled(s, step) && OneWorker(step)
    ensures Inv(Take(s, step))
  {
    assert Knows(s, s.workers[step.i]);
    StepMoves(s, step);
    StepBounds(s, step);
    StepShape(s, step);
    WorkerStepKeeps(s, Take(s, step), step.i, Take(s, step).workers[step.i],
                    Touched(s.workers[step.i], step).0, Touched(s.workers[step.i], step).1);
  }

  lemma CancelKeeps(s: State)
    requires Inv(s)
    ensures Inv(s.(cancelled := true))
  {
    var t := s.(cancelled := true);
    ExtendsKnows(s, t);
    assert forall c :: 0 <= c < |t.tokens| ==> Balanced(s, c) ==> Balanced(t, c);
  }

  lemma StepKeeps(s: State, step: Step)
    requires Inv(s) && ValidLimits(s.limits) && Enabled(s, step)
    ensures Inv(Take(s, step)) && Take(s, step).limits == s.limits
  {
    if step.Lookup? {
      LookupKeeps(s, step.i);
    } else if step.CancelAll? {
      CancelKeeps(s);
    } else {
      OneWorkerKeeps(s, step);
    }
  }

  lemma WorkerStepKeeps(s: State, t: State, i: nat, w: Worker, c: nat, delta: int)
    requires Inv(s) && i < |s.workers| && c < |s.tokens| && 0 <= s.tokens[c] + delta <= s.caps[c]
    requires Moves(s.workers[i], w, c, delta) && Knows(s, w)
    requires t == s.(tokens := s.tokens[c := s.tokens[c] + delta], workers := s.workers[i := w])
    ensures Inv(t)
  {
    MoveBalances(s, i, w, c, delta);
    GoKnows(s, t, i, w);
  }

  lemma StartKeeps(limits: Caps, workers: seq<Worker>)
    requires ValidLimits(limits) && forall i :: 0 <= i < |workers| ==> workers[i].place == Start
    ensures Inv(NewSemaphores(limits, workers))
  {
    var s := NewSemaphores(limits, workers);
    CountNone(workers, Holding(0));
    assert Balanced(s, 0);
  }

  // ---------------------------------------------------------------- runs

  function Run(start: State, steps: seq<Step>): (r: (bool, State)) {
    if steps == [] then (true, start)
    else
      var before := Run(start, steps[..|steps| - 1]);
      if before.0 && Enabled(before.1, steps[|steps| - 1])
      then (true, Take(before.1, steps[|steps| - 1]))
      else (false, before.1)
  }

  ghost predicate Reachable(limits: Caps, workers: seq<Worker>, steps: seq<Step>, s: State) {
    && ValidLimits(limits) && (forall i :: 0 <= i < |workers| ==> workers[i].place == Start)
    && Run(NewSemaphores(limits, workers), steps) == (true, s)
  }

  lemma {:induction false} ReachableKeeps(limits: Caps, workers: seq<Worker>, steps: seq<Step>, s: State)
    requires Reachable(limits, workers, steps, s)
    ensures Inv(s) && s.limits == limits
  {
    if steps == [] {
      StartKeeps(limits, workers);
    } else {
      var before := Run(NewSemaphores(limits, workers), steps[..|steps| - 1]).1;
      ReachableKeeps(limits, workers, steps[..|steps| - 1], before);
      StepKeeps(before, steps[|steps| - 1]);
    }
  }

  /** In every reachable state the workers at work keep to all three caps. */
  lemma CapsRespected(limits: Caps, workers: seq<Worker>, steps: seq<Step>, s: State, cloud: string, cred: string)
    requires Reachable(limits, workers, steps, s)
    ensures CountIf(s.workers, Busy()) <= limits.global
    ensures CountIf(s.workers, BusyIn(cloud)) <= limits.perCloud
    ensures CountIf(s.workers, BusyWith(cred)) <= limits.perCred
  {
    ReachableKeeps(limits, workers, steps, s);
    assert Balanced(s, 0);
    CountAtMost(s.workers, Busy(), Holding(0));
    CloudCap(s, cloud);
    CredCap(s, cred);
  }

  lemma CloudCap(s: State, cloud: string)
    requires Inv(s) && s.limits.perCloud >= 0
    ensures CountIf(s.workers, BusyIn(cloud)) <= s.limits.perCloud
  {
    var at := BusyIn(cloud);
    forall i | 0 <= i < |s.workers| && at(s.workers[i])
      ensures cloud in s.perCloud && HoldsChannel(s.workers[i], s.perCloud[cloud])
    {
      assert Knows(s, s.workers[i]);
    }
    if cloud in s.perCloud {
      assert Balanced(s, s.perCloud[cloud]);
      CountAtMost(s.workers, at, Holding(s.perCloud[cloud]));
    } else {
      CountNone(s.workers, at);
    }
  }

  lemma CredCap(s: State, cred: string)
    requires Inv(s) && s.limits.perCred >= 0
    ensures CountIf(s.workers, BusyWith(cred)) <= s.limits.perCred
  {
    var at := BusyWith(cred);
    forall i | 0 <= i < |s.workers| && at(s.workers[i])
      ensures cred in s.perCred && HoldsChannel(s.workers[i], s.perCred[cred])
    {
      assert Knows(s, s.workers[i]);
    }
    if cred in s.perCred {
      assert Balanced(s, s.perCred[cred]);
      CountAtMost(s.workers, at, Holding(s.perCred[cred]));
    } else {
      CountNone(s.workers, at);
    }
  }

  // ---------------------------------------------------------------- when a worker moves on

  function Within(): Worker -> bool {
    (w: Worker) => w.place != Start && w.place != Done
  }

  function WithinCloud(cloud: string): Worker -> bool {
    (w: Worker) => w.place in {HasCloud, Running, DropCred, DropCloud} && w.cloud == cloud
  }

  function WithinCred(cred: string): Worker -> bool {
    (w: Worker) => w.place in {Running, DropCred} && w.cred == cred
  }

  lemma CountSame(ws: seq<Worker>, p: Worker -> bool, q: Worker -> bool)
    requires forall i :: 0 <= i < |ws| ==> p(ws[i]) == q(ws[i])
    ensures CountIf(ws, p) == CountIf(ws, q)
  {
    CountAtMost(ws, p, q);
    CountAtMost(ws, q, p);
  }

  lemma CloudHolders(s: State, cloud: string)
    requires Inv(s) && cloud in s.perCloud
    ensures Holders(s.workers, s.perCloud[cloud]) == CountIf(s.workers, WithinCloud(cloud))
  {
    forall i | 0 <= i < |s.workers|
      ensures Holding(s.perCloud[cloud])(s.workers[i]) == WithinCloud(cloud)(s.workers[i])
    {
      assert Knows(s, s.workers[i]);
    }
    CountSame(s.workers, Holding(s.perCloud[cloud]), WithinCloud(cloud));
  }

  lemma CredHolders(s: State, cred: string)
    requires Inv(s) && cred in s.perCred
    ensures Holders(s.workers, s.perCred[cred]) == CountIf(s.workers, WithinCred(cred))
  {
    forall i | 0 <= i < |s.workers|
      ensures Holding(s.perCred[cred])(s.workers[i]) == WithinCred(cred)(s.workers[i])
    {
      assert Knows(s, s.workers[i]);
    }
    CountSame(s.workers, Holding(s.perCred[cred]), WithinCred(cred));
  }

  /** In every reachable state a worker is held up at a semaphore exactly while as many workers
      as the cap admits are past it: in all, in its cloud, with its credential. */
  lemma MovesOnIff(limits: Caps, workers: seq<Worker>, steps: seq<Step>, s: State, i: nat)
    requires Reachable(limits, workers, steps, s) && i < |s.workers|
    ensures At(s, i, Start) ==> (Enabled(s, TakeGlobal(i)) <==> CountIf(s.workers, Within()) < limits.global)
    ensures At(s, i, Looked) ==>
              (Enabled(s, TakeCloud(i)) <==>
               CountIf(s.workers, WithinCloud(s.workers[i].cloud)) < limits.perCloud)
    ensures At(s, i, HasCloud) ==>
              (Enabled(s, TakeCred(i)) <==> CountIf(s.workers, WithinCred(s.workers[i].cred)) < limits.perCred)
  {
    ReachableKeeps(limits, workers, steps, s);
    assert Balanced(s, 0) && Knows(s, s.workers[i]);
    CountSame(s.workers, Holding(0), Within());
    if At(s, i, Looked) {
      CloudHolders(s, s.workers[i].cloud);
      assert Balanced(s, s.workers[i].cs);
    }
    if At(s, i, HasCloud) {
      CredHolders(s, s.workers[i].cred);
      assert Balanced(s, s.workers[i].crs);
    }
  }

  /** How often the worker has done its work, by where it is. */
  ghost predicate WorkDone(s: State, i: nat, n: nat)
    requires i < |s.workers|
  {
    match s.workers[i].place
    case DropCred => n == 1
    case DropCloud => n <= 1 && (!s.cancelled ==> n == 1)
    case DropGlobal => n <= 1 && (!s.cancelled ==> n == 1)
    case Done => n <= 1 && (!s.cancelled ==> n == 1)
    case _ => n == 0
  }

  lemma StepWorks(s: State, step: Step, i: nat, n: nat)
    requires Enabled(s, step) && i < |s.workers| && WorkDone(s, i, n)
    ensures |Take(s, step).workers| == |s.workers|
    ensures WorkDone(Take(s, step), i, n + if step == Finish(i) then 1 else 0)
    ensures Take(s, step).cancelled <==> s.cancelled || step == CancelAll
  {
  }

  lemma LastStep(steps: seq<Step>, step: Step)
    requires steps != []
    ensures multiset(steps)[step] == multiset(steps[..|steps| - 1])[step] + if steps[|steps| - 1] == step then 1 else 0
    ensures step in steps <==> step in steps[..|steps| - 1] || steps[|steps| - 1] == step
  {
    assert steps == steps[..|steps| - 1] + [steps[|steps| - 1]];
  }

  /** A worker never works twice, and unless the run was cancelled it is not done before it has
      worked once. */
  lemma {:induction false} WorksOnce(limits: Caps, workers: seq<Worker>, steps: seq<Step>, s: State, i: nat)
    requires Reachable(limits, workers, steps, s) && i < |workers|
    ensures |s.workers| == |workers| && WorkDone(s, i, multiset(steps)[Finish(i)])
    ensures s.cancelled <==> CancelAll in steps
  {
    if steps != [] {
      var init := steps[..|steps| - 1];
      var before := Run(NewSemaphores(limits, workers), init);
      WorksOnce(limits, workers, init, before.1, i);
      StepWorks(before.1, steps[|steps| - 1], i, multiset(init)[Finish(i)]);
      LastStep(steps, Finish(i));
      LastStep(steps, CancelAll);
    }
  }

  // ---------------------------------------------------------------- progress

  ghost predicate Unfinished(s: State, i: int) {
    0 <= i < |s.workers| && s.workers[i].place != Done
  }

  /** A worker holding a token can always give it back: `release` never blocks. */
  lemma ReturnsNeverBlock(s: State, i: nat)
    requires Inv(s) && i < |s.workers|
    ensures At(s, i, DropCred) ==> Enabled(s, ReturnCred(i))
    ensures At(s, i, DropCloud) ==> Enabled(s, ReturnCloud(i))
    ensures At(s, i, DropGlobal) ==> Enabled(s, ReturnGlobal(i))
  {
    var w := s.workers[i];
    assert Knows(s, w);
    forall c | c in {0, w.cs, w.crs} && HoldsChannel(w, c) && c < |s.tokens|
      ensures HasToken(s, c)
    {
      assert Balanced(s, c);
      CountSome(s.workers, Holding(c), i);
    }
  }

  ghost predicate Quiet(w: Worker) {
    w.place in {Start, Looked, HasCloud, Done}
  }

  lemma EmptyHasRoom(s: State, c: nat)
    requires Inv(s) && c < |s.tokens| && s.caps[c] >= 1
    requires forall i :: 0 <= i < |s.workers| ==> !HoldsChannel(s.workers[i], c)
    ensures HasRoom(s, c)
  {
    assert Balanced(s, c);
    CountNone(s.workers, Holding(c));
  }

  ghost predicate Caps1(limits: Caps) {
    limits.global >= 1 && limits.perCloud >= 1 && limits.perCred >= 1
  }

  /** With every worker waiting or done, the one that got furthest finds room. */
  lemma FurthestCanTake(s: State, i: nat)
    requires Inv(s) && Caps1(s.limits) && Unfinished(s, i)
    requires forall k :: 0 <= k < |s.workers| ==> Quiet(s.workers[k])
    ensures exists k, step :: Unfinished(s, k) && step in {TakeGlobal(k), TakeCloud(k), TakeCred(k)} && Enabled(s, step)
  {
    if k :| 0 <= k < |s.workers| && s.workers[k].place == HasCloud {
      CredFree(s, k);
      assert Unfinished(s, k) && Enabled(s, TakeCred(k));
    } else if k :| 0 <= k < |s.workers| && s.workers[k].place == Looked {
      CloudFree(s, k);
      assert Unfinished(s, k) && Enabled(s, TakeCloud(k));
    } else {
      EmptyHasRoom(s, 0);
      assert Unfinished(s, i) && Enabled(s, TakeGlobal(i));
    }
  }

  lemma CredFree(s: State, k: nat)
    requires Inv(s) && Caps1(s.limits) && At(s, k, HasCloud)
    requires forall i :: 0 <= i < |s.workers| ==> Quiet(s.workers[i])
    ensures HasRoom(s, s.workers[k].crs)
  {
    var w := s.workers[k];
    assert Knows(s, w);
    forall i | 0 <= i < |s.workers|
      ensures !HoldsChannel(s.workers[i], w.crs)
    {
      assert Knows(s, s.workers[i]) && Quiet(s.workers[i]);
    }
    EmptyHasRoom(s, w.crs);
  }

  lemma CloudFree(s: State, k: nat)
    requires Inv(s) && Caps1(s.limits) && At(s, k, Looked)
    requires forall i :: 0 <= i < |s.workers| ==> Quiet(s.workers[i]) && s.workers[i].place != HasCloud
    ensures HasRoom(s, s.workers[k].cs)
  {
    var w := s.workers[k];
    assert Knows(s, w);
    forall i | 0 <= i < |s.workers|
      ensures !HoldsChannel(s.workers[i], w.cs)
    {
      assert Quiet(s.workers[i]);
    }
    EmptyHasRoom(s, w.cs);
  }

  /** No deadlock: while a worker is unfinished some worker can step, cancelled or not. */
  lemma NoDeadlock(limits: Caps, workers: seq<Worker>, steps: seq<Step>, s: State, i: nat)
    requires Reachable(limits, workers, steps, s) && Caps1(limits) && Unfinished(s, i)
    ensures exists step :: Enabled(s, step) && !step.CancelAll?
  {
    ReachableKeeps(limits, workers, steps, s);
    if k: nat :| k < |s.workers| && !Quiet(s.workers[k]) {
      LoudCanStep(s, k);
    } else {
      FurthestCanTake(s, i);
    }
  }

  lemma LoudCanStep(s: State, k: nat)
    requires Inv(s) && k < |s.workers| && !Quiet(s.workers[k])
    ensures exists step :: Enabled(s, step) && !step.CancelAll?
  {
    ReturnsNeverBlock(s, k);
    match s.workers[k].place
    case HasGlobal => assert Enabled(s, Lookup(k));
    case Running => assert Enabled(s, Finish(k));
    case DropCred => assert Enabled(s, ReturnCred(k));
    case DropCloud => assert Enabled(s, ReturnCloud(k));
    case DropGlobal => assert Enabled(s, ReturnGlobal(k));
  }

  function Rank(place: Place): nat {
    match place
    case Start => 8
    case HasGlobal => 7
    case Looked => 6
    case HasCloud => 5
    case Running => 4
    case DropCred => 3
    case DropCloud => 2
    case DropGlobal => 1
    case Done => 0
  }

  /** What is left to do: a bound on the number of steps still to come. */
  function Left(ws: seq<Worker>): nat {
    if ws == [] then 0 else Left(ws[..|ws| - 1]) + Rank(ws[|ws| - 1].place)
  }

  lemma {:induction false} LeftUpdate(ws: seq<Worker>, i: nat, w: Worker)
    requires i < |ws|
    ensures Left(ws[i := w]) == Left(ws) + Rank(w.place) - Rank(ws[i].place)
  {
    var init := ws[..|ws| - 1];
    if i < |ws| - 1 {
      assert ws[i := w][..|ws| - 1] == init[i := w];
      LeftUpdate(init, i, w);
    } else {
      assert ws[i := w][..|ws| - 1] == init;
    }
  }

  function Budget(s: State): nat {
    Left(s.workers) + if s.cancelled then 0 else 1
  }

  lemma StepSpends(s: State, step: Step)
    requires Enabled(s, step)
    ensures Budget(Take(s, step)) < Budget(s)
  {
    if !step.CancelAll? {
      var w := Take(s, step).workers[step.i];
      assert Take(s, step).workers == s.workers[step.i := w];
      LeftUpdate(s.workers, step.i, w);
    }
  }

  lemma {:induction false} RunSpends(start: State, steps: seq<Step>)
    requires Run(start, steps).0
    ensures |steps| + Budget(Run(start, steps).1) <= Budget(start)
  {
    if steps != [] {
      RunSpends(start, steps[..|steps| - 1]);
      StepSpends(Run(start, steps[..|steps| - 1]).1, steps[|steps| - 1]);
    }
  }

  lemma {:induction false} LeftBound(ws: seq<Worker>)
    requires forall i :: 0 <= i < |ws| ==> ws[i].place == Start
    ensures Left(ws) == 8 * |ws|
  {
    if ws != [] {
      LeftBound(ws[..|ws| - 1]);
    }
  }

  /** Every run ends within eight steps a worker, and when no worker can step any more all of
      them are done and every token, cancelled acquires' included, is back. */
  lemma RunsEnd(limits: Caps, workers: seq<Worker>, steps: seq<Step>, s: State)
    requires Reachable(limits, workers, steps, s) && Caps1(limits)
    ensures |steps| <= 8 * |workers| + 1
    ensures (forall step :: Enabled(s, step) ==> step.CancelAll?) ==>
              (forall i :: 0 <= i < |s.workers| ==> s.workers[i].place == Done) &&
              (forall c :: 0 <= c < |s.tokens| ==> s.tokens[c] == 0)
  {
    LeftBound(workers);
    RunSpends(NewSemaphores(limits, workers), steps);
    ReachableKeeps(limits, workers, steps, s);
    if forall step :: Enabled(s, step) ==> step.CancelAll? {
      forall i | 0 <= i < |s.workers|
        ensures s.workers[i].place == Done
      {
        if Unfinished(s, i) {
          NoDeadlock(limits, workers, steps, s, i);
        }
      }
      forall c | 0 <= c < |s.tokens|
        ensures s.tokens[c] == 0
      {
        assert Balanced(s, c);
        CountNone(s.workers, Holding(c));
      }
    }
  }
}

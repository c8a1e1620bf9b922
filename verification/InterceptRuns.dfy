/** What the intercept protocol guarantees over whole runs. */
module InterceptRuns {
  import opened Wrappers
  import opened InterceptProtocol

  predicate Legal(s: State, run: seq<Action>)
    decreases |run|
  {
    run == [] || (Can(s, run[0]) && Legal(Do(s, run[0]), run[1..]))
  }

  function Run(s: State, run: seq<Action>): State
    requires Legal(s, run)
    decreases |run|
  {
    if run == [] then s else Run(Do(s, run[0]), run[1..])
  }

  lemma {:induction false} RunKeeps(s: State, run: seq<Action>)
    requires Inv(s) && Legal(s, run)
    ensures Inv(Run(s, run))
    decreases |run|
  {
    if run != [] {
      StepKeeps(s, run[0]);
      RunKeeps(Do(s, run[0]), run[1..]);
    }
  }

  /** A state some interleaving reaches from a fresh gate. */
  ghost predicate Reachable(s: State) {
    exists run :: Legal(Init(), run) && Run(Init(), run) == s
  }

  lemma ReachableInv(s: State)
    requires Reachable(s)
    ensures Inv(s)
  {
    var run :| Legal(Init(), run) && Run(Init(), run) == s;
    InitInv();
    RunKeeps(Init(), run);
  }

  // ---- no waiting request is lost ----

  /** A Hold waiting for its decision is still somewhere the UI will find it, or its answer is there. */
  lemma NoPendingLost(s: State, id: HoldId)
    requires Reachable(s) && id in s.holds && s.holds[id].pc.AwaitReply?
    ensures id in s.queue || s.watch == Some(id) || id in s.dispatch || s.ui == Checked(id) || s.shown == Some(id)
            || (s.ui.Answering? && s.ui.id == id) || id in s.reply
    ensures id !in s.cancelled
  {
    ReachableInv(s);
  }

  /** showRequest overwrites only pendings nobody waits on. */
  lemma ShowOverwritesOnlyCancelled(s: State)
    requires Reachable(s) && s.ui.Checked? && s.shown.Some?
    ensures s.shown.value in s.cancelled
    ensures s.shown.value in s.holds && !s.holds[s.shown.value].pc.AwaitReply?
  {
    ReachableInv(s);
    assert Trail(s)[0] == s.shown.value && Trail(s)[1] == s.ui.id;
  }

  // ---- tokens, replies ----

  function Holders(s: State): set<HoldId> {
    set i | i in s.holds && Critical(s.holds[i].pc)
  }

  lemma TokensAreHolders(s: State)
    requires Reachable(s)
    ensures s.sem == |Holders(s)| <= 1
  {
    ReachableInv(s);
    if s.sem == 1 {
      var i :| i in s.holds && Critical(s.holds[i].pc);
      assert Holders(s) == {i};
    } else {
      assert Holders(s) == {};
    }
  }

  lemma OneLiveInQueue(s: State, i: nat, j: nat)
    requires Reachable(s) && i < j < |s.queue|
    ensures s.queue[i] in s.cancelled
  {
    ReachableInv(s);
    var k := |Trail(s)| - |s.queue|;
    assert Trail(s)[k..] == s.queue;
    assert Trail(s)[k + i] == s.queue[i];
  }

  /** The reply buffer is empty whenever the UI sends, and no pending is ever answered twice. */
  lemma ReplyNeverBlocks(s: State)
    requires Reachable(s) && s.ui.Answering?
    ensures s.ui.id !in s.reply && s.ui.id !in s.sent
    ensures Can(s, SendReply)
  {
    ReachableInv(s);
    assert Trail(s)[0] == s.ui.id;
  }

  /** How often call `id` performs effect `e` during a run. */
  function Count(s: State, run: seq<Action>, id: HoldId, e: Effect): nat
    requires Legal(s, run)
    decreases |run|
  {
    if run == [] then 0
    else
      var a := run[0];
      (if a.HoldStep? && a.id == id && Move(s, s.holds[id], id, a.branch).1 == e then 1 else 0)
      + Count(Do(s, a), run[1..], id, e)
  }

  function Held(s: State, id: HoldId): int {
    if id in s.holds && Critical(s.holds[id].pc) then 1 else 0
  }

  predicate PastSem(s: State, id: HoldId) {
    id in s.holds && (Critical(s.holds[id].pc) || s.holds[id].pc.Done?)
  }

  /** One step of `id`'s account: what it holds changes by what it acquires and releases. */
  lemma BalanceStep(s: State, a: Action, id: HoldId)
    requires Can(s, a)
    ensures var e := if a.HoldStep? && a.id == id then Move(s, s.holds[id], id, a.branch).1 else Nothing;
      && Held(Do(s, a), id) == Held(s, id) + (if e.Acquire? then 1 else 0) - (if e.Release? then 1 else 0)
      && (PastSem(s, id) || e.Acquire? ==> PastSem(Do(s, a), id)) && (e.Acquire? ==> !PastSem(s, id))
  {
    if !a.Call? && !a.HoldStep? {
      ConsumerFrame(s, a);
    }
  }

  lemma {:induction false} TokenBalance(s: State, run: seq<Action>, id: HoldId)
    requires Legal(s, run)
    ensures Held(s, id) + Count(s, run, id, Acquire) == Held(Run(s, run), id) + Count(s, run, id, Release)
    ensures Count(s, run, id, Acquire) <= if PastSem(s, id) then 0 else 1
    decreases |run|
  {
    hide Do, Move, Held, PastSem;
    if run != [] {
      BalanceStep(s, run[0], id);
      TokenBalance(Do(s, run[0]), run[1..], id);
    }
  }

  /** Every exit gives back exactly what it took: one token, or none when it never got one. */
  lemma EveryExitReleasesOnce(run: seq<Action>, id: HoldId)
    requires Legal(Init(), run)
    requires id in Run(Init(), run).holds && Run(Init(), run).holds[id].pc.Done?
    ensures Count(Init(), run, id, Release) == Count(Init(), run, id, Acquire) <= 1
  {
    TokenBalance(Init(), run, id);
  }

  // ---- what a call returns ----

  /** `id` has been, or is about to be, answered with its own request by the UI. */
  ghost predicate AnsweredWithOwn(s: State, id: HoldId, r: Request) {
    && id in s.holds && s.holds[id].req == r
    && (|| (id in s.sent && s.sent[id] == Pass(r))
        || (s.ui.Answering? && s.ui.id == id && s.ui.answer == Pass(r) && id !in s.sent)
        || (s.shown == Some(id) && (s.ui == Switching(false) || s.ui.SwitchedOff?) && id !in s.sent))
  }

  lemma AnsweredWithOwnKeeps(s: State, a: Action, id: HoldId, r: Request)
    requires Inv(s) && Can(s, a) && AnsweredWithOwn(s, id, r)
    ensures AnsweredWithOwn(Do(s, a), id, r)
  {
    hide TokensOk, ChannelsOk, OutcomesOk, PendingsOk, CanHold, Move;
    match a
    case Call(_, _) =>
    case HoldStep(other, b) => HoldFrame(s, other, b);
    case SendReply =>
      assert Trail(s)[0] == s.ui.id;
      ConsumerFrame(s, a);
    case _ => ConsumerFrame(s, a);
  }

  lemma {:induction false} AnsweredWithOwnRun(s: State, run: seq<Action>, id: HoldId, r: Request)
    requires Inv(s) && Legal(s, run) && AnsweredWithOwn(s, id, r)
    ensures AnsweredWithOwn(Run(s, run), id, r)
    decreases |run|
  {
    if run != [] {
      StepKeeps(s, run[0]);
      AnsweredWithOwnKeeps(s, run[0], id, r);
      AnsweredWithOwnRun(Do(s, run[0]), run[1..], id, r);
    }
  }

  /** After toggle-off or Forward All, the call on display returns its original request, whichever select
      branch wins and whatever happens meanwhile. */
  lemma ShownReturnsOriginal(s: State, a: Action, run: seq<Action>, id: HoldId)
    requires Reachable(s) && s.shown == Some(id) && (a == Toggle(false) || a == ForwardAllClick) && s.ui.Idle?
    ensures Can(s, a)
    ensures id in s.holds
    ensures Legal(Do(s, a), run) ==>
      var n := Run(Do(s, a), run);
      id in n.holds && (n.holds[id].pc.Done? ==> n.holds[id].pc.result == Pass(s.holds[id].req))
  {
    ReachableInv(s);
    assert Trail(s)[0] == id;
    var r := s.holds[id].req;
    assert AnsweredWithOwn(Do(s, a), id, r);
    if Legal(Do(s, a), run) {
      StepKeeps(s, a);
      AnsweredWithOwnRun(Do(s, a), run, id, r);
      RunKeeps(Do(s, a), run);
    }
  }

  /** A call returns its own request, forwarded, or the decision it was sent; and the decision, whenever there
      is one and its bypass channel stayed open. */
  lemma ReturnsOwnOrAnswer(s: State, id: HoldId)
    requires Reachable(s) && id in s.holds && s.holds[id].pc.Done?
    ensures var d := s.holds[id].pc.result;
      && (d == Pass(s.holds[id].req) || (id in s.sent && d == s.sent[id]))
      && (id in s.sent && s.holds[id].chan !in s.gate.closed ==> d == s.sent[id])
  {
    ReachableInv(s);
  }

  // ---- bypass releases everyone ----

  /** No unfinished call watches an abandoned open channel. */
  ghost predicate NoOrphans(s: State) {
    forall i :: i in s.holds && Watching(s.holds[i].pc) ==>
      s.holds[i].chan in s.gate.closed || s.holds[i].chan == s.gate.current
  }

  /** SetEnabled(true) about to replace an open channel that some unfinished call captured. */
  predicate Orphaning(s: State, a: Action) {
    && a.SwitchBypass? && s.ui == Switching(true) && !s.gate.bypassClosed
    && exists i :: i in s.holds && Watching(s.holds[i].pc) && s.holds[i].chan == s.gate.current
  }

  /** Orphaning is exactly what breaks it. */
  lemma NoOrphansUnlessReplaced(s: State, a: Action)
    requires ChannelsOk(s) && NoOrphans(s) && Can(s, a)
    ensures NoOrphans(Do(s, a)) <==> !Orphaning(s, a)
  {
    match a
    case Call(_, _) =>
    case HoldStep(id, b) => HoldFrame(s, id, b);
    case _ => ConsumerFrame(s, a);
  }

  /** The bypass section of SetEnabled(false) and of ForwardAll closes every watched channel. */
  lemma BypassReachesAll(s: State, a: Action, id: HoldId)
    requires Inv(s) && NoOrphans(s) && Can(s, a) && Bypasses(s, a)
    requires id in s.holds && Watching(s.holds[id].pc)
    ensures id in Do(s, a).holds && Do(s, a).holds[id] == s.holds[id] && s.holds[id].chan in Do(s, a).gate.closed
  {
  }

  /** Steps a call still has to take at most. */
  function Rank(pc: Pc): nat {
    match pc
    case CheckEnabled => 10 case CheckScope => 9 case CaptureBypass => 8 case AwaitSem => 7
    case RecheckEnabled => 6 case RecheckBypass => 5 case Enqueue => 4 case AwaitReply => 3
    case Cancel => 2 case Releasing(_) => 1 case Done(_) => 0
  }

  function Own(a: Action, id: HoldId): nat {
    if a.HoldStep? && a.id == id then 1 else 0
  }

  function OwnSteps(run: seq<Action>, id: HoldId): nat {
    if run == [] then 0 else Own(run[0], id) + OwnSteps(run[1..], id)
  }

  ghost predicate Released(s: State, id: HoldId) {
    id in s.holds && (s.holds[id].pc.Done? || (Watching(s.holds[id].pc) && s.holds[id].chan in s.gate.closed))
  }

  /** Some next step of the call is ready, and it is not the receipt of a reply. */
  ghost predicate CanProceed(s: State, id: HoldId) {
    exists b :: Can(s, HoldStep(id, b)) && !Move(s, s.holds[id], id, b).1.TakeReply?
  }

  lemma ReleasedKeeps(s: State, a: Action, id: HoldId)
    requires Can(s, a) && Released(s, id)
    ensures Released(Do(s, a), id)
    ensures Rank(Do(s, a).holds[id].pc) + Own(a, id) <= Rank(s.holds[id].pc) <= 7
  {
    match a
    case Call(_, _) =>
    case HoldStep(other, b) => HoldFrame(s, other, b);
    case _ => ConsumerFrame(s, a);
  }

  /** Once its channel is closed a call finishes within seven of its own steps, never blocked, with no reply needed. */
  lemma {:induction false} ReleasedFinishes(s: State, run: seq<Action>, id: HoldId)
    requires Inv(s) && Legal(s, run) && Released(s, id)
    ensures Released(Run(s, run), id)
    ensures OwnSteps(run, id) + Rank(Run(s, run).holds[id].pc) <= Rank(s.holds[id].pc) <= 7
    ensures Run(s, run).holds[id].pc.Done? || CanProceed(Run(s, run), id)
    decreases |run|
  {
    if run == [] {
      NeverBlocked(s, id);
    } else {
      StepKeeps(s, run[0]);
      ReleasedKeeps(s, run[0], id);
      var n := Do(s, run[0]);
      ReleasedFinishes(n, run[1..], id);
      assert Run(s, run) == Run(n, run[1..]);
    }
  }

  lemma NeverBlocked(s: State, id: HoldId)
    requires Inv(s) && Released(s, id)
    ensures s.holds[id].pc.Done? || CanProceed(s, id)
  {
    var pc := s.holds[id].pc;
    if !pc.Done? {
      var b := if pc.AwaitSem? || pc.Enqueue? || pc.AwaitReply? then Second else First;
      assert Can(s, HoldStep(id, b)) && !Move(s, s.holds[id], id, b).1.TakeReply?;
    }
  }

  predicate NeverOrphans(s: State, run: seq<Action>)
    requires Legal(s, run)
    decreases |run|
  {
    run == [] || (!Orphaning(s, run[0]) && NeverOrphans(Do(s, run[0]), run[1..]))
  }

  lemma {:induction false} NoOrphansRun(s: State, run: seq<Action>)
    requires Inv(s) && NoOrphans(s) && Legal(s, run) && NeverOrphans(s, run)
    ensures NoOrphans(Run(s, run))
    decreases |run|
  {
    if run != [] {
      StepKeeps(s, run[0]);
      NoOrphansUnlessReplaced(s, run[0]);
      NoOrphansRun(Do(s, run[0]), run[1..]);
    }
  }

  /** From a fresh gate, without ever orphaning a call, no call watches an abandoned open channel. */
  lemma NoOrphansFromStart(run: seq<Action>)
    requires Legal(Init(), run) && NeverOrphans(Init(), run)
    ensures NoOrphans(Run(Init(), run))
  {
    InitInv();
    NoOrphansRun(Init(), run);
  }

  predicate Bypasses(s: State, a: Action) {
    a.ReleaseAll? || (a.SwitchBypass? && s.ui == Switching(false))
  }

  /** A channel that is neither current nor closed: replaced while it was open. */
  predicate Abandoned(g: Gate, c: ChanId) {
    c < g.nextChan && c != g.current && c !in g.closed
  }

  /** Which calls a bypass releases: those whose channel is closed already or current. In every reachable state
      such a call is done after at most seven further steps of its own, can always take the next one without
      a reply, and if it was not answered it returns its own request. Any other call watches a channel that
      nothing in any run will ever close. */
  lemma BypassReleasesIff(s: State, a: Action, run: seq<Action>, id: HoldId)
    requires Reachable(s) && Can(s, a) && Bypasses(s, a)
    requires id in s.holds && Watching(s.holds[id].pc) && Legal(Do(s, a), run)
    ensures Released(Do(s, a), id) <==> s.holds[id].chan in s.gate.closed || s.holds[id].chan == s.gate.current
    ensures if Released(Do(s, a), id) then ReleasedAlong(Do(s, a), run, id)
      else
        forall k :: 0 <= k <= |run| ==>
          Legal(Do(s, a), run[..k]) && Abandoned(Run(Do(s, a), run[..k]).gate, s.holds[id].chan)
  {
    ReachableInv(s);
    StepKeeps(s, a);
    BypassStep(s, a, id);
    var m := Do(s, a);
    if Released(m, id) {
      ReleasedRun(m, run, id);
    } else {
      forall k | 0 <= k <= |run|
        ensures Legal(m, run[..k]) && Abandoned(Run(m, run[..k]).gate, s.holds[id].chan)
      {
        LegalPrefix(m, run, k);
        AbandonedRun(m, run[..k], s.holds[id].chan);
      }
    }
  }

  /** Seven own steps at most, never blocked, and the own request unless the call was answered. */
  ghost predicate ReleasedAlong(s: State, run: seq<Action>, id: HoldId)
    requires Legal(s, run)
  {
    var n := Run(s, run);
    && Released(n, id) && OwnSteps(run, id) <= 7
    && if n.holds[id].pc.Done? then id !in n.sent ==> n.holds[id].pc.result == Pass(n.holds[id].req)
       else OwnSteps(run, id) < 7 && CanProceed(n, id)
  }

  lemma ReleasedRun(s: State, run: seq<Action>, id: HoldId)
    requires Inv(s) && Released(s, id) && Legal(s, run)
    ensures ReleasedAlong(s, run, id)
  {
    ReleasedFinishes(s, run, id);
    RunKeeps(s, run);
    RankPositive(Run(s, run).holds[id].pc);
  }

  lemma BypassStep(s: State, a: Action, id: HoldId)
    requires Inv(s) && Can(s, a) && Bypasses(s, a) && id in s.holds && Watching(s.holds[id].pc)
    ensures var m, c := Do(s, a), s.holds[id].chan;
      && id in m.holds && m.holds[id] == s.holds[id]
      && (c in m.gate.closed <==> c in s.gate.closed || c == s.gate.current)
      && (c !in m.gate.closed ==> Abandoned(m.gate, c))
  {
  }

  lemma {:induction false} LegalPrefix(s: State, run: seq<Action>, k: nat)
    requires Legal(s, run) && k <= |run|
    ensures Legal(s, run[..k])
    decreases |run|
  {
    if k > 0 {
      LegalPrefix(Do(s, run[0]), run[1..], k - 1);
      assert run[..k][1..] == run[1..][..k - 1];
    }
  }

  lemma {:induction false} AbandonedRun(s: State, run: seq<Action>, c: ChanId)
    requires Legal(s, run) && Abandoned(s.gate, c)
    ensures Abandoned(Run(s, run).gate, c)
    decreases |run|
  {
    if run != [] {
      AbandonedStep(s, run[0], c);
      AbandonedRun(Do(s, run[0]), run[1..], c);
    }
  }

  lemma AbandonedStep(s: State, a: Action, c: ChanId)
    requires Can(s, a) && Abandoned(s.gate, c)
    ensures Abandoned(Do(s, a).gate, c)
  {
  }

  // ---- what is left to a call on an abandoned channel ----

  /** Waiting for its reply, or finishing with the one it got. */
  ghost predicate WaitsForReply(s: State, id: HoldId) {
    && id in s.holds && Abandoned(s.gate, s.holds[id].chan)
    && (s.holds[id].pc.AwaitReply? ||
        (Finishing(s.holds[id].pc) && id in s.sent && s.holds[id].pc.result == s.sent[id]))
  }

  lemma WaitsOwnStep(s: State, other: HoldId, b: Branch, id: HoldId)
    requires PendingsOk(s) && Can(s, HoldStep(other, b)) && WaitsForReply(s, id)
    ensures var n := DoHold(s, other, b);
      n.gate == s.gate && id in n.holds && n.holds[id].chan == s.holds[id].chan && WaitsForReply(n, id)
  {
    hide Trail;
    HoldFrame(s, other, b);
  }

  lemma WaitsStep(s: State, a: Action, id: HoldId)
    requires Inv(s) && Can(s, a) && WaitsForReply(s, id)
    ensures WaitsForReply(Do(s, a), id)
  {
    hide TokensOk, ChannelsOk, OutcomesOk, CanHold, Abandoned, DoHold, PendingsOk;
    AbandonedStep(s, a, s.holds[id].chan);
    match a
    case Call(_, _) =>
    case HoldStep(other, b) => WaitsOwnStep(s, other, b, id);
    case SendReply =>
      assert Trail(s)[0] == s.ui.id;
      ConsumerFrame(s, a);
    case _ => ConsumerFrame(s, a);
  }

  /** A call that awaits its reply on an abandoned channel never ends but with the decision sent to it, however
      often the gate is toggled or everything forwarded. */
  lemma {:induction false} OrphanNeedsReply(s: State, run: seq<Action>, id: HoldId)
    requires Inv(s) && Legal(s, run) && WaitsForReply(s, id)
    ensures WaitsForReply(Run(s, run), id)
    ensures var h := Run(s, run).holds[id]; h.pc.Done? ==> id in Run(s, run).sent && h.pc.result == Run(s, run).sent[id]
    decreases |run|
  {
    if run != [] {
      StepKeeps(s, run[0]);
      WaitsStep(s, run[0], id);
      OrphanNeedsReply(Do(s, run[0]), run[1..], id);
    }
  }

  lemma RankPositive(pc: Pc)
    ensures pc.Done? <==> Rank(pc) == 0
  {
  }

  // ---- an orphan ----

  lemma {:induction false} Extend(s: State, run: seq<Action>, a: Action)
    requires Legal(s, run) && Can(Run(s, run), a)
    ensures Legal(s, run + [a]) && Run(s, run + [a]) == Do(Run(s, run), a)
    decreases |run|
  {
    if run == [] {
      assert run + [a] == [a];
    } else {
      Extend(Do(s, run[0]), run[1..], a);
      assert (run + [a])[1..] == run[1..] + [a];
    }
  }

  /** A run that ends in the given state, extended by one action. */
  lemma Play(run: seq<Action>, s: State, a: Action, n: State) returns (longer: seq<Action>)
    requires Legal(Init(), run) && Run(Init(), run) == s && Can(s, a) && Do(s, a) == n
    ensures longer == run + [a] && Legal(Init(), longer) && Run(Init(), longer) == n
  {
    Extend(Init(), run, a);
    longer := run + [a];
  }

  function At(r: Request, g: Gate, ui: Ui, sem: nat, queue: seq<HoldId>, pc: Pc): State {
    Init().(gate := g, ui := ui, sem := sem, queue := queue, holds := map[0 := Hold(r, pc, 0)])
  }

  lemma NoStepsYet()
    ensures Legal(Init(), []) && Run(Init(), []) == Init()
  {
  }

  /** The first toggle-on writes the flag before it replaces the open initial channel: a call that captures
      in between watches a channel nobody will ever close, and Forward All does not release it. */
  lemma FirstToggleOnCanOrphan(r: Request) returns (run: seq<Action>, s: State)
    ensures Legal(Init(), run) && Run(Init(), run) == s
    ensures run != [] && run[|run| - 1] == ReleaseAll
    ensures 0 in s.holds && s.holds[0].pc.AwaitReply? && WaitsForReply(s, 0) && !NoOrphans(s)
    ensures forall b :: !Can(s, HoldStep(0, b))
  {
    hide Legal, Run, Inv;
    NoStepsYet();
    var own, on := HoldStep(0, First), Switching(true);
    var g0, g1, g2 := Gate(true, 0, false, {}, 1), Gate(true, 1, false, {}, 2), Gate(true, 2, false, {1}, 3);
    var s0 := Init().(gate := g0, ui := on);
    run := Play([], Init(), Toggle(true), s0);
    run := Play(run, s0, Call(0, r), At(r, g0, on, 0, [], CheckEnabled));
    run := Play(run, At(r, g0, on, 0, [], CheckEnabled), own, At(r, g0, on, 0, [], CheckScope));
    run := Play(run, At(r, g0, on, 0, [], CheckScope), own, At(r, g0, on, 0, [], CaptureBypass));
    run := Play(run, At(r, g0, on, 0, [], CaptureBypass), own, At(r, g0, on, 0, [], AwaitSem));
    run := Play(run, At(r, g0, on, 0, [], AwaitSem), SwitchBypass, At(r, g1, Idle, 0, [], AwaitSem));
    run := Play(run, At(r, g1, Idle, 0, [], AwaitSem), own, At(r, g1, Idle, 1, [], RecheckEnabled));
    run := Play(run, At(r, g1, Idle, 1, [], RecheckEnabled), own, At(r, g1, Idle, 1, [], RecheckBypass));
    run := Play(run, At(r, g1, Idle, 1, [], RecheckBypass), own, At(r, g1, Idle, 1, [], Enqueue));
    run := Play(run, At(r, g1, Idle, 1, [], Enqueue), own, At(r, g1, Idle, 1, [0], AwaitReply));
    run := Play(run, At(r, g1, Idle, 1, [0], AwaitReply), ForwardAllClick, At(r, g1, ReleasingAll, 1, [0], AwaitReply));
    s := At(r, g2, Idle, 1, [0], AwaitReply);
    run := Play(run, At(r, g1, ReleasingAll, 1, [0], AwaitReply), ReleaseAll, s);
  }
}

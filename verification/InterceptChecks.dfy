/** What the checks on the way through the gate are for: a gate that is off holds nothing, a call that is turned
    away at a check never reaches the queue, one that is not is queued, and a cancelled pending is never shown. */
module InterceptChecks {
  import opened InterceptProtocol
  import opened InterceptRuns

  // ---- a gate that is off ----

  predicate NeverTurnedOn(run: seq<Action>) {
    forall i :: 0 <= i < |run| ==> run[i] != Toggle(true)
  }

  /** Off, and no call past the first check but those that returned their own request at once. */
  ghost predicate NothingHeld(s: State) {
    && !s.gate.enabled && s.sem == 0
    && s.queue == [] && s.watch.None? && s.dispatch == [] && s.shown.None? && s.sent == map[] && s.reply == map[]
    && !s.ui.Checked? && !s.ui.Answering?
    && forall i :: i in s.holds ==> s.holds[i].pc.CheckEnabled? || s.holds[i].pc == Done(Decision(true, s.holds[i].req))
  }

  lemma NothingHeldStep(s: State, a: Action)
    requires NothingHeld(s) && Can(s, a) && a != Toggle(true)
    ensures NothingHeld(Do(s, a))
  {
    match a
    case Call(_, _) =>
    case HoldStep(id, b) => HoldFrame(s, id, b);
    case _ => ConsumerFrame(s, a);
  }

  /** With intercept never switched on, every request goes through at once: no call waits for the semaphore or a
      decision, nothing is queued, shown or answered, and every call returns its own request. */
  lemma {:induction false} OffHoldsNothing(s: State, run: seq<Action>)
    requires NothingHeld(s) && Legal(s, run) && NeverTurnedOn(run)
    ensures NothingHeld(Run(s, run))
    decreases |run|
  {
    if run != [] {
      NothingHeldStep(s, run[0]);
      assert NeverTurnedOn(run[1..]) by { assert forall i :: 0 <= i < |run[1..]| ==> run[1..][i] == run[i + 1]; }
      OffHoldsNothing(Do(s, run[0]), run[1..]);
    }
  }

  lemma NeverOnHoldsNothing(run: seq<Action>)
    requires Legal(Init(), run) && NeverTurnedOn(run)
    ensures NothingHeld(Run(Init(), run))
  {
    OffHoldsNothing(Init(), run);
  }

  lemma OffStep(s: State, a: Action)
    requires Can(s, a) && a != Toggle(true) && !s.gate.enabled
    ensures !Do(s, a).gate.enabled
  {
    match a
    case Call(_, _) =>
    case HoldStep(id, b) =>
    case _ =>
  }

  // ---- one call ----

  /** Not yet past the second look at the switch. */
  predicate Early(pc: Pc) {
    pc.CheckEnabled? || pc.CheckScope? || pc.CaptureBypass? || pc.AwaitSem? || pc.RecheckEnabled?
  }

  /** Leaving, or gone, with its own request. */
  predicate TurnedAway(h: Hold) { h.pc == Releasing(Decision(true, h.req)) || h.pc == Done(Decision(true, h.req)) }

  /** A call whose first step finds the gate off is done with its own request after that step. */
  lemma OffReturnsAtOnce(s: State, id: HoldId)
    requires Reachable(s) && id in s.holds && s.holds[id].pc.CheckEnabled? && !s.gate.enabled
    ensures Can(s, HoldStep(id, First)) && !Can(s, HoldStep(id, Second))
    ensures var n := Do(s, HoldStep(id, First));
      n == s.(holds := s.holds[id := s.holds[id].(pc := Done(Decision(true, s.holds[id].req)))])
  {
  }

  /** So is a call whose host is out of scope. */
  lemma OutOfScopeReturnsAtOnce(s: State, id: HoldId)
    requires Reachable(s) && id in s.holds && s.holds[id].pc.CheckScope?
    ensures Can(s, HoldStep(id, Second))
    ensures var n := Do(s, HoldStep(id, Second));
      n == s.(holds := s.holds[id := s.holds[id].(pc := Done(Decision(true, s.holds[id].req)))])
  {
  }

  /** A call in possession of the token that finds the gate off, or its channel closed, gives up its place. */
  lemma RecheckTurnsAway(s: State, id: HoldId)
    requires Reachable(s) && id in s.holds
    requires (s.holds[id].pc.RecheckEnabled? && !s.gate.enabled)
             || (s.holds[id].pc.RecheckBypass? && s.holds[id].chan in s.gate.closed)
    ensures Can(s, HoldStep(id, First)) && !Can(s, HoldStep(id, Second))
    ensures var n := Do(s, HoldStep(id, First));
      TurnedAway(n.holds[id]) && id !in Trail(n) && n.queue == s.queue && Reachable(n)
  {
    ReachableInv(s);
    ReachableMore(s, HoldStep(id, First));
    StepKeeps(s, HoldStep(id, First));
    HoldKeepsTrail(s, id, First);
  }

  lemma ReachableMore(s: State, a: Action)
    requires Reachable(s) && Can(s, a)
    ensures Reachable(Do(s, a))
  {
    var run :| Legal(Init(), run) && Run(Init(), run) == s;
    Extend(Init(), run, a);
  }

  /** Once turned away, a call is never in the queue, with watchQueue, on display or answered, in any run, and it
      returns nothing but its own request. */
  lemma {:induction false} TurnedAwayStays(s: State, run: seq<Action>, id: HoldId)
    requires Inv(s) && Legal(s, run) && id in s.holds && TurnedAway(s.holds[id]) && id !in Trail(s)
    ensures var n := Run(s, run);
      id in n.holds && n.holds[id].req == s.holds[id].req && TurnedAway(n.holds[id]) && id !in Trail(n)
    decreases |run|
  {
    if run != [] {
      TurnedAwayStep(s, run[0], id);
      StepKeeps(s, run[0]);
      TurnedAwayStays(Do(s, run[0]), run[1..], id);
    }
  }

  lemma TurnedAwayStep(s: State, a: Action, id: HoldId)
    requires Inv(s) && Can(s, a) && id in s.holds && TurnedAway(s.holds[id]) && id !in Trail(s)
    ensures var n := Do(s, a);
      id in n.holds && n.holds[id].req == s.holds[id].req && TurnedAway(n.holds[id]) && id !in Trail(n)
  {
    hide Trail, TrailOk;
    match a
    case Call(other, req) => CallTrail(s, other, req);
    case HoldStep(other, b) =>
      HoldKeepsTrail(s, other, b);
      HoldFrame(s, other, b);
    case _ =>
      ConsumerFrame(s, a);
      var k := ConsumerTrail(s, a);
      TrailOnlyLoses(s, Do(s, a), a.SendReply?, k, id);
  }

  lemma CallTrail(s: State, id: HoldId, req: Request)
    requires Can(s, Call(id, req))
    ensures Trail(Do(s, Call(id, req))) == Trail(s)
  {
  }

  lemma TrailOnlyLoses(s: State, n: State, answer: bool, k: int, id: HoldId)
    requires TrailMoves(s, n, answer, k) && id !in Trail(s)
    ensures id !in Trail(n)
  {
  }

  /** As long as the gate stays off, a call that has not passed the second look never does, and returns its own
      request. */
  lemma {:induction false} OffPassesThrough(s: State, run: seq<Action>, id: HoldId)
    requires Legal(s, run) && NeverTurnedOn(run) && !s.gate.enabled
    requires id in s.holds && (Early(s.holds[id].pc) || TurnedAway(s.holds[id]))
    ensures var n := Run(s, run);
      && id in n.holds && n.holds[id].req == s.holds[id].req
      && (Early(n.holds[id].pc) || TurnedAway(n.holds[id]))
    decreases |run|
  {
    if run != [] {
      var a := run[0];
      OffStep(s, a);
      match a {
        case Call(_, _) =>
        case HoldStep(other, b) => HoldFrame(s, other, b);
        case _ => ConsumerFrame(s, a);
      }
      assert NeverTurnedOn(run[1..]) by { assert forall i :: 0 <= i < |run[1..]| ==> run[1..][i] == run[i + 1]; }
      OffPassesThrough(Do(s, a), run[1..], id);
    }
  }

  // ---- a gate that is on ----

  /** With the gate on, its channel open, the token free and room in the queue, a call in scope that is let run is
      queued behind all others and waits. */
  lemma OnIsQueued(s: State, id: HoldId)
    requires Reachable(s) && id in s.holds && s.holds[id].pc.CheckEnabled?
    requires s.gate.enabled && !s.gate.bypassClosed && s.sem == 0 && |s.queue| < QUEUE_CAPACITY
    ensures var run := Times(HoldStep(id, First), 7);
      && Legal(s, run)
      && Run(s, run) == s.(sem := 1, queue := s.queue + [id],
                           holds := s.holds[id := Hold(s.holds[id].req, AwaitReply, s.gate.current)])
  {
    ReachableInv(s);
    QueuedRun(s, id);
  }

  lemma QueuedRun(s: State, id: HoldId)
    requires id in s.holds && s.holds[id].pc.CheckEnabled? && s.gate.enabled && s.gate.current !in s.gate.closed
    requires s.sem == 0 && |s.queue| < QUEUE_CAPACITY
    ensures var run := Times(HoldStep(id, First), 7);
      && Legal(s, run)
      && Run(s, run) == At(s, id, AwaitReply, s.gate.current, 1).(queue := s.queue + [id])
  {
    hide Legal, Run, Do, Can;
    var a, h, g := HoldStep(id, First), s.holds[id], s.gate.current;
    var s3, s6 := At(s, id, AwaitSem, g, 0), At(s, id, Enqueue, g, 1);
    var s1, s2 := At(s, id, CheckScope, h.chan, 0), At(s, id, CaptureBypass, h.chan, 0);
    var s4, s5 := At(s, id, RecheckEnabled, g, 1), At(s, id, RecheckBypass, g, 1);
    var n := At(s, id, AwaitReply, g, 1).(queue := s.queue + [id]);
    FirstSteps(s, id);
    LastSteps(s, id);
    NoRun(n);
    OneRun(s6, a, 0, n);
    OneRun(s5, a, 1, n);
    OneRun(s4, a, 2, n);
    OneRun(s3, a, 3, n);
    OneRun(s2, a, 4, n);
    OneRun(s1, a, 5, n);
    OneRun(s, a, 6, n);
  }

  function Times(a: Action, k: nat): seq<Action> {
    if k == 0 then [] else [a] + Times(a, k - 1)
  }

  lemma FirstSteps(s: State, id: HoldId)
    requires id in s.holds && s.holds[id].pc.CheckEnabled? && s.gate.enabled && s.sem == 0
    ensures var a, c, g := HoldStep(id, First), s.holds[id].chan, s.gate.current;
      && Can(s, a) && Do(s, a) == At(s, id, CheckScope, c, 0)
      && Can(At(s, id, CheckScope, c, 0), a) && Do(At(s, id, CheckScope, c, 0), a) == At(s, id, CaptureBypass, c, 0)
      && Can(At(s, id, CaptureBypass, c, 0), a) && Do(At(s, id, CaptureBypass, c, 0), a) == At(s, id, AwaitSem, g, 0)
  {
  }

  lemma LastSteps(s: State, id: HoldId)
    requires id in s.holds && s.gate.enabled && s.gate.current !in s.gate.closed && |s.queue| < QUEUE_CAPACITY
    ensures var a, g := HoldStep(id, First), s.gate.current;
      && Can(At(s, id, AwaitSem, g, 0), a) && Do(At(s, id, AwaitSem, g, 0), a) == At(s, id, RecheckEnabled, g, 1)
      && Can(At(s, id, RecheckEnabled, g, 1), a)
      && Do(At(s, id, RecheckEnabled, g, 1), a) == At(s, id, RecheckBypass, g, 1)
      && Can(At(s, id, RecheckBypass, g, 1), a) && Do(At(s, id, RecheckBypass, g, 1), a) == At(s, id, Enqueue, g, 1)
      && Can(At(s, id, Enqueue, g, 1), a)
      && Do(At(s, id, Enqueue, g, 1), a) == At(s, id, AwaitReply, g, 1).(queue := s.queue + [id])
  {
  }

  lemma NoRun(s: State)
    ensures Legal(s, []) && Run(s, []) == s
  {
  }

  function At(s: State, id: HoldId, pc: Pc, chan: ChanId, sem: nat): State
    requires id in s.holds
  {
    s.(sem := sem, holds := s.holds[id := Hold(s.holds[id].req, pc, chan)])
  }

  lemma OneRun(s: State, a: Action, k: nat, n: State)
    requires Can(s, a) && Legal(Do(s, a), Times(a, k)) && Run(Do(s, a), Times(a, k)) == n
    ensures Legal(s, Times(a, k + 1)) && Run(s, Times(a, k + 1)) == n
  {
    assert Times(a, k + 1)[1..] == Times(a, k);
  }

  // ---- a cancelled pending ----

  lemma SkippedInTrail(s: State, n: State, f: seq<HoldId>, id: HoldId, r: seq<HoldId>)
    requires TrailOk(Trail(s), s) && Trail(s) == f + [id] + r
    requires Trail(n) == if id in s.cancelled then f + r else f + [id] + r
    ensures id in Trail(s) && (id in Trail(n) <==> id !in s.cancelled)
  {
    hide Trail;
    assert Trail(s)[|f|] == id;
    CutMiddle(f, id, r);
    TrailDrops(Trail(s), |f|, s);
  }

  /** A pending that is cancelled when watchQueue or its callback looks is gone for good; one that is not goes on. */
  lemma CancelledIsNotDispatched(s: State)
    requires Reachable(s) && Can(s, Dispatch)
    ensures var id, n := s.watch.value, Do(s, Dispatch); id in Trail(s) && (id in Trail(n) <==> id !in s.cancelled)
    ensures Do(s, Dispatch).dispatch ==
      if s.watch.value in s.cancelled then s.dispatch else s.dispatch + [s.watch.value]
  {
    hide TrailOk;
    ReachableInv(s);
    var f := InHand(s.ui, s.shown) + s.dispatch;
    assert InHand(s.ui, s.shown) + (s.dispatch + [s.watch.value]) == f + [s.watch.value];
    SkippedInTrail(s, Do(s, Dispatch), f, s.watch.value, s.queue);
  }

  lemma CancelledIsNotShown(s: State)
    requires Reachable(s) && Can(s, RunCallback)
    ensures var id, n := s.dispatch[0], Do(s, RunCallback);
      && id in Trail(s) && (id in Trail(n) <==> id !in s.cancelled)
      && n.ui == if id in s.cancelled then Idle else Checked(id)
  {
    hide TrailOk;
    ReachableInv(s);
    var id, later := s.dispatch[0], s.dispatch[1..];
    assert s.dispatch == [id] + later;
    TrailAround(Opt(s.shown), id, later, Opt(s.watch), s.queue);
    SkippedInTrail(s, Do(s, RunCallback), Opt(s.shown), id, later + Opt(s.watch) + s.queue);
  }
}

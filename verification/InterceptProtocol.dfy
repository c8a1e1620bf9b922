/** The intercept gate and its one consumer as a step system: any number of Hold calls, the capacity-one
    semaphore, the queue, the replaceable bypass channel, watchQueue and the UI goroutine. One action is
    one atomic step (a critical section, a channel operation, a select branch). */
module InterceptProtocol {
  import opened Wrappers

  /** An opaque request together with its body. */
  type Request(==, !new)
  type HoldId = nat
  type ChanId = nat

  datatype Decision = Decision(forward: bool, request: Request)

  function Pass(r: Request): Decision { Decision(true, r) }

  /** Where a Hold call stands. */
  datatype Pc =
    | CheckEnabled
    | CheckScope
    | CaptureBypass
    | AwaitSem
    | RecheckEnabled
    | RecheckBypass
    | Enqueue
    | AwaitReply
    | Cancel
    | Releasing(result: Decision)
    | Done(result: Decision)

  /** `chan` is the bypass channel the call captured; it means nothing before AwaitSem. */
  datatype Hold = Hold(req: Request, pc: Pc, chan: ChanId)

  /** The mutex-guarded fields; `closed` is the set of channels closed so far, `nextChan` the next to make. */
  datatype Gate = Gate(enabled: bool, current: ChanId, bypassClosed: bool, closed: set<ChanId>, nextChan: nat)

  /** What the UI goroutine is in the middle of. */
  datatype Ui =
    | Idle
    | Checked(id: HoldId)                                // watchQueue's callback: IsDone was false
    | Switching(on: bool)                                // SetEnabled: flag written, bypass section next
    | SwitchedOff                                        // toggle callback after SetEnabled(false)
    | Answering(id: HoldId, answer: Decision, all: bool) // t.pending taken, reply not yet sent
    | ReleasingAll                                       // about to run the gate's ForwardAll

  /** A pending request is named by the Hold call that made it. */
  datatype State = State(
    gate: Gate, sem: nat, queue: seq<HoldId>,
    watch: Option<HoldId>, dispatch: seq<HoldId>, ui: Ui, shown: Option<HoldId>,
    holds: map<HoldId, Hold>, cancelled: set<HoldId>,
    reply: map<HoldId, Decision>,   // the buffered, unread replies
    sent: map<HoldId, Decision>)    // every reply ever sent

  const QUEUE_CAPACITY := 1024

  function Init(): State {
    State(Gate(false, 0, false, {}, 1), 0, [], None, [], Idle, None, map[], {}, map[], map[])
  }

  /** The two branches of a select; First alone where the code has no select. */
  datatype Branch = First | Second

  datatype Action =
    | Call(id: HoldId, req: Request)
    | HoldStep(id: HoldId, branch: Branch)
    | Receive | Dispatch
    | RunCallback | Show
    | Toggle(on: bool) | SwitchBypass | ClearAfterOff
    | Decide(answer: Decision) | ForwardAllClick | SendReply | ReleaseAll

  /** What a Hold step does beyond moving its program counter. */
  datatype Effect = Nothing | CaptureChan | Acquire | Release | Put | TakeReply | MarkCancelled

  predicate CanHold(s: State, h: Hold, id: HoldId, b: Branch) {
    match h.pc
    case CheckScope => true
    case AwaitSem => if b.First? then s.sem < 1 else h.chan in s.gate.closed
    case Enqueue => if b.First? then |s.queue| < QUEUE_CAPACITY else h.chan in s.gate.closed
    case AwaitReply => if b.First? then id in s.reply else h.chan in s.gate.closed
    case Releasing(_) => b.First? && s.sem > 0
    case Done(_) => false
    case _ => b.First?
  }

  /** The request on display is that of some call (it always is: see Trail). */
  predicate ShownKnown(s: State) {
    s.shown.Some? ==> s.shown.value in s.holds
  }

  predicate Can(s: State, a: Action) {
    match a
    case Call(id, _) => id !in s.holds
    case HoldStep(id, b) => id in s.holds && CanHold(s, s.holds[id], id, b)
    case Receive => s.watch.None? && s.queue != []
    case Dispatch => s.watch.Some?
    case RunCallback => s.ui.Idle? && s.dispatch != []
    case Show => s.ui.Checked?
    case Toggle(_) => s.ui.Idle?
    case SwitchBypass => s.ui.Switching?
    case ClearAfterOff => s.ui.SwitchedOff? && ShownKnown(s)
    case Decide(_) => s.ui.Idle? && s.shown.Some?
    case ForwardAllClick => s.ui.Idle? && ShownKnown(s)
    case SendReply => s.ui.Answering?
    case ReleaseAll => s.ui.ReleasingAll?
  }

  /** `if !bypassClosed { close(bypass); bypassClosed = true }` */
  function CloseBypass(g: Gate): Gate {
    if g.bypassClosed then g else g.(closed := g.closed + {g.current}, bypassClosed := true)
  }

  /** `bypass = make(chan struct{}); bypassClosed = false` */
  function ReplaceBypass(g: Gate): Gate {
    g.(current := g.nextChan, nextChan := g.nextChan + 1, bypassClosed := false)
  }

  /** One step of Hold, line by line. */
  function Move(s: State, h: Hold, id: HoldId, b: Branch): (Pc, Effect)
    requires CanHold(s, h, id, b)
  {
    var pass := Pass(h.req);
    match h.pc
    case CheckEnabled => (if s.gate.enabled then CheckScope else Done(pass), Nothing)
    case CheckScope => (if b.First? then CaptureBypass else Done(pass), Nothing)
    case CaptureBypass => (AwaitSem, CaptureChan)
    case AwaitSem => if b.First? then (RecheckEnabled, Acquire) else (Done(pass), Nothing)
    case RecheckEnabled => (if s.gate.enabled then RecheckBypass else Releasing(pass), Nothing)
    case RecheckBypass => (if h.chan in s.gate.closed then Releasing(pass) else Enqueue, Nothing)
    case Enqueue => if b.First? then (AwaitReply, Put) else (Cancel, Nothing)
    case AwaitReply => if b.First? then (Releasing(s.reply[id]), TakeReply) else (Cancel, Nothing)
    case Cancel => (Releasing(pass), MarkCancelled)
    case Releasing(d) => (Done(d), Release)
  }

  function DoHold(s: State, id: HoldId, b: Branch): State
    requires id in s.holds && CanHold(s, s.holds[id], id, b)
  {
    var h := s.holds[id];
    var (pc, e) := Move(s, h, id, b);
    s.(holds := s.holds[id := Hold(h.req, pc, if e.CaptureChan? then s.gate.current else h.chan)],
       sem := if e.Acquire? then s.sem + 1 else if e.Release? then s.sem - 1 else s.sem,
       queue := if e.Put? then s.queue + [id] else s.queue,
       reply := if e.TakeReply? then s.reply - {id} else s.reply,
       cancelled := if e.MarkCancelled? then s.cancelled + {id} else s.cancelled)
  }

  /** The UI takes t.pending and will send `d`; with nothing shown it goes on to `next`. */
  function TakeShown(s: State, all: bool, next: Ui): State
    requires ShownKnown(s)
  {
    match s.shown
    case Some(id) => s.(shown := None, ui := Answering(id, Pass(s.holds[id].req), all))
    case None => s.(ui := next)
  }

  /** A step of watchQueue or of the UI goroutine. */
  function DoConsumer(s: State, a: Action): State
    requires Can(s, a) && !a.Call? && !a.HoldStep?
  {
    match a
    case Receive => s.(watch := Some(s.queue[0]), queue := s.queue[1..])
    case Dispatch =>
      var id := s.watch.value;
      s.(watch := None, dispatch := if id in s.cancelled then s.dispatch else s.dispatch + [id])
    case RunCallback =>
      var id := s.dispatch[0];
      s.(dispatch := s.dispatch[1..], ui := if id in s.cancelled then Idle else Checked(id))
    case Show => s.(shown := Some(s.ui.id), ui := Idle)
    case Toggle(on) => s.(gate := s.gate.(enabled := on), ui := Switching(on))
    case SwitchBypass =>
      if s.ui.on then s.(gate := ReplaceBypass(s.gate), ui := Idle)
        else s.(gate := CloseBypass(s.gate), ui := SwitchedOff)
    case ClearAfterOff => TakeShown(s, false, Idle)
    case Decide(d) => s.(shown := None, ui := Answering(s.shown.value, d, false))
    case ForwardAllClick => TakeShown(s, true, ReleasingAll)
    case SendReply =>
      var Answering(id, d, all) := s.ui;
      s.(reply := s.reply[id := d], sent := s.sent[id := d], ui := if all then ReleasingAll else Idle)
    case ReleaseAll => s.(gate := ReplaceBypass(CloseBypass(s.gate)), ui := Idle)
  }

  function Do(s: State, a: Action): State
    requires Can(s, a)
  {
    match a
    case Call(id, req) => s.(holds := s.holds[id := Hold(req, CheckEnabled, 0)])
    case HoldStep(id, b) => DoHold(s, id, b)
    case _ => DoConsumer(s, a)
  }

  // ---- what every reachable state satisfies ----

  /** Between acquiring the semaphore and giving it back. */
  predicate Critical(pc: Pc) {
    pc.RecheckEnabled? || pc.RecheckBypass? || pc.Enqueue? || pc.AwaitReply? || pc.Cancel? || pc.Releasing?
  }

  /** Captured a bypass channel and not returned. */
  predicate Watching(pc: Pc) {
    pc.AwaitSem? || Critical(pc)
  }

  predicate PastEnqueue(pc: Pc) {
    pc.AwaitReply? || pc.Cancel? || pc.Releasing? || pc.Done?
  }

  function Opt(o: Option<HoldId>): seq<HoldId> {
    if o.Some? then [o.value] else []
  }

  /** What the UI goroutine has in hand, oldest first. */
  function InHand(ui: Ui, shown: Option<HoldId>): seq<HoldId> {
    match ui
    case Answering(id, _, _) => [id] + Opt(shown)
    case Checked(id) => Opt(shown) + [id]
    case _ => Opt(shown)
  }

  /** The pendings on their way through the consumer, oldest first. */
  function Trail(s: State): seq<HoldId> {
    InHand(s.ui, s.shown) + s.dispatch + Opt(s.watch) + s.queue
  }

  ghost predicate TokensOk(s: State) {
    && s.sem <= 1
    && (forall i, j :: i in s.holds && j in s.holds && Critical(s.holds[i].pc) && Critical(s.holds[j].pc) ==> i == j)
    && (s.sem == 1 <==> exists i :: i in s.holds && Critical(s.holds[i].pc))
  }

  ghost predicate ChannelsOk(s: State) {
    && (s.gate.bypassClosed <==> s.gate.current in s.gate.closed)
    && s.gate.current < s.gate.nextChan
    && (forall c :: c in s.gate.closed ==> c < s.gate.nextChan)
    && (forall i :: i in s.holds && Watching(s.holds[i].pc) ==> s.holds[i].chan < s.gate.nextChan)
  }

  /** Every pending but the newest is cancelled; one that is not cancelled still has its Hold. */
  ghost predicate TrailOk(t: seq<HoldId>, s: State) {
    && (forall i, j :: 0 <= i < j < |t| ==> t[i] != t[j])
    && (forall i :: 0 <= i < |t| ==> t[i] in s.holds && PastEnqueue(s.holds[t[i]].pc) && t[i] !in s.sent)
    && (forall i :: 0 <= i < |t| - 1 ==> t[i] in s.cancelled)
    && (forall i :: 0 <= i < |t| && t[i] !in s.cancelled ==> s.holds[t[i]].pc.AwaitReply? || s.holds[t[i]].pc.Cancel?)
  }

  /** A waiting pending is on the trail or has its reply. */
  ghost predicate WaitingOk(s: State) {
    forall i :: i in s.holds && s.holds[i].pc.AwaitReply? ==> i in Trail(s) || i in s.reply
  }

  ghost predicate PendingsOk(s: State) {
    && WaitingOk(s)
    && (forall i :: i in s.cancelled ==>
          i in s.holds && (s.holds[i].pc.Releasing? || s.holds[i].pc.Done?) && s.holds[i].chan in s.gate.closed)
    && (forall i :: i in s.holds && s.holds[i].pc.Cancel? ==> s.holds[i].chan in s.gate.closed)
    && (forall i :: i in s.reply ==> i in s.sent && s.reply[i] == s.sent[i])
    && (forall i :: i in s.sent ==> i in s.holds && PastEnqueue(s.holds[i].pc))
  }

  predicate Finishing(pc: Pc) {
    pc.Releasing? || pc.Done?
  }

  /** A call returns its own request untouched, or the decision it was sent; a decision sent to it is
      honoured unless its bypass channel was closed. */
  ghost predicate OutcomesOk(s: State) {
    forall i :: i in s.holds && Finishing(s.holds[i].pc) ==>
      && (s.holds[i].pc.result == Pass(s.holds[i].req) || (i in s.sent && s.holds[i].pc.result == s.sent[i]))
      && (i in s.sent && s.holds[i].chan !in s.gate.closed ==> s.holds[i].pc.result == s.sent[i])
  }

  ghost predicate Inv(s: State) {
    TokensOk(s) && ChannelsOk(s) && TrailOk(Trail(s), s) && PendingsOk(s) && OutcomesOk(s)
  }

  lemma InitInv()
    ensures Inv(Init())
  {
    assert Trail(Init()) == [];
    assert TokensOk(Init()) && ChannelsOk(Init());
  }

  /** A new call is at its first line; everything else is as it was. */
  ghost predicate OneMore(s: State, n: State, id: HoldId) {
    && id !in s.holds && n.holds.Keys == s.holds.Keys + {id} && n.holds[id].pc.CheckEnabled?
    && (forall i :: i in s.holds ==> n.holds[i] == s.holds[i])
    && n.sem == s.sem && n.gate == s.gate && n.cancelled == s.cancelled && n.reply == s.reply && n.sent == s.sent
    && Trail(n) == Trail(s)
  }

  lemma OneMoreTokens(s: State, n: State, id: HoldId)
    requires OneMore(s, n, id) && TokensOk(s)
    ensures TokensOk(n)
  {
    hide Trail;
    if i :| i in s.holds && Critical(s.holds[i].pc) {
      assert i in n.holds;
    }
  }

  lemma OneMoreRest(s: State, n: State, id: HoldId)
    requires OneMore(s, n, id) && ChannelsOk(s) && TrailOk(Trail(s), s) && PendingsOk(s) && OutcomesOk(s)
    ensures ChannelsOk(n) && TrailOk(Trail(n), n) && PendingsOk(n) && OutcomesOk(n)
  {
    hide Trail;
  }

  lemma CallKeeps(s: State, id: HoldId, req: Request)
    requires Inv(s) && Can(s, Call(id, req))
    ensures Inv(Do(s, Call(id, req)))
  {
    hide TokensOk, ChannelsOk, TrailOk, PendingsOk, OutcomesOk;
    var n := Do(s, Call(id, req));
    assert Trail(n) == Trail(s);
    OneMoreTokens(s, n, id);
    OneMoreRest(s, n, id);
  }

  // ---- a Hold step ----

  /** What a Hold step leaves alone. */
  ghost predicate OnlyMoves(s: State, n: State, id: HoldId) {
    && id in s.holds && n.holds.Keys == s.holds.Keys
    && (forall i :: i in s.holds && i != id ==> n.holds[i] == s.holds[i])
    && n.holds[id].req == s.holds[id].req
    && n.sent == s.sent
  }

  lemma HoldFrame(s: State, id: HoldId, b: Branch)
    requires Can(s, HoldStep(id, b))
    ensures OnlyMoves(s, DoHold(s, id, b), id)
  {
  }

  lemma HoldKeepsTokens(s: State, id: HoldId, b: Branch)
    requires TokensOk(s) && Can(s, HoldStep(id, b))
    ensures TokensOk(DoHold(s, id, b))
  {
    var n := DoHold(s, id, b);
    HoldFrame(s, id, b);
    assert n.sem - s.sem == (if Critical(n.holds[id].pc) then 1 else 0) - if Critical(s.holds[id].pc) then 1 else 0;
    if i :| i in s.holds && Critical(s.holds[i].pc) {
      assert i in n.holds;
    }
  }

  lemma HoldKeepsChannels(s: State, id: HoldId, b: Branch)
    requires ChannelsOk(s) && Can(s, HoldStep(id, b))
    ensures ChannelsOk(DoHold(s, id, b))
  {
  }

  lemma TrailStays(t: seq<HoldId>, s: State, n: State, id: HoldId)
    requires TrailOk(t, s) && OnlyMoves(s, n, id) && s.cancelled <= n.cancelled
    requires PastEnqueue(s.holds[id].pc) ==> PastEnqueue(n.holds[id].pc)
    requires id in t && id !in n.cancelled ==> n.holds[id].pc.AwaitReply? || n.holds[id].pc.Cancel?
    ensures TrailOk(t, n)
  {
    forall i | 0 <= i < |t| ensures t[i] in n.holds && PastEnqueue(n.holds[t[i]].pc) {
      assert t[i] in s.holds;
    }
  }

  /** The newcomer holds the semaphore, so every older pending is already cancelled. */
  lemma TrailGrows(t: seq<HoldId>, s: State, n: State, id: HoldId)
    requires TrailOk(t, s) && OnlyMoves(s, n, id) && n.cancelled == s.cancelled && TokensOk(s)
    requires s.holds[id].pc.Enqueue? && n.holds[id].pc.AwaitReply? && id !in s.sent
    ensures TrailOk(t + [id], n)
  {
    forall i | 0 <= i < |t| ensures t[i] != id && t[i] in n.cancelled && n.holds[t[i]] == s.holds[t[i]] {
      assert t[i] in s.holds && PastEnqueue(s.holds[t[i]].pc);
    }
  }

  lemma HoldKeepsTrail(s: State, id: HoldId, b: Branch)
    requires TokensOk(s) && TrailOk(Trail(s), s) && PendingsOk(s) && Can(s, HoldStep(id, b))
    ensures Trail(DoHold(s, id, b)) == Trail(s) + if s.holds[id].pc.Enqueue? && b.First? then [id] else []
    ensures TrailOk(Trail(DoHold(s, id, b)), DoHold(s, id, b))
  {
    var n := DoHold(s, id, b);
    HoldFrame(s, id, b);
    if s.holds[id].pc.Enqueue? && b.First? {
      TrailGrows(Trail(s), s, n, id);
      assert Trail(n) == Trail(s) + [id];
    } else {
      assert Trail(n) == Trail(s);
      if id in Trail(s) && id !in n.cancelled {
        assert PastEnqueue(s.holds[id].pc) && id !in s.sent && id !in s.reply;
      }
      TrailStays(Trail(s), s, n, id);
    }
  }

  lemma HoldKeepsWaiting(s: State, id: HoldId, b: Branch)
    requires WaitingOk(s) && Can(s, HoldStep(id, b))
    requires Trail(DoHold(s, id, b)) == Trail(s) + if s.holds[id].pc.Enqueue? && b.First? then [id] else []
    ensures WaitingOk(DoHold(s, id, b))
  {
    hide Trail;
    var n := DoHold(s, id, b);
    HoldFrame(s, id, b);
    forall i | i in n.holds && n.holds[i].pc.AwaitReply? ensures i in Trail(n) || i in n.reply {
      if i == id {
        assert Trail(n)[|Trail(s)|] == id;
      } else {
        assert s.holds[i].pc.AwaitReply?;
      }
    }
  }

  lemma HoldKeepsPendings(s: State, id: HoldId, b: Branch)
    requires PendingsOk(s) && Can(s, HoldStep(id, b))
    requires Trail(DoHold(s, id, b)) == Trail(s) + if s.holds[id].pc.Enqueue? && b.First? then [id] else []
    ensures PendingsOk(DoHold(s, id, b))
  {
    hide Trail, WaitingOk;
    HoldFrame(s, id, b);
    HoldKeepsWaiting(s, id, b);
  }

  lemma HoldKeepsOutcomes(s: State, id: HoldId, b: Branch)
    requires OutcomesOk(s) && PendingsOk(s) && Can(s, HoldStep(id, b))
    ensures OutcomesOk(DoHold(s, id, b))
  {
    HoldFrame(s, id, b);
  }

  lemma HoldStepKeeps(s: State, id: HoldId, b: Branch)
    requires Inv(s) && Can(s, HoldStep(id, b))
    ensures Inv(DoHold(s, id, b))
  {
    HoldKeepsTokens(s, id, b);
    HoldKeepsChannels(s, id, b);
    HoldKeepsTrail(s, id, b);
    HoldKeepsPendings(s, id, b);
    HoldKeepsOutcomes(s, id, b);
  }

  // ---- a step of watchQueue or of the UI ----

  function DropAt(t: seq<HoldId>, k: nat): seq<HoldId>
    requires k < |t|
  {
    t[..k] + t[k + 1..]
  }

  /** Each consumer step moves a pending along the trail, or drops a cancelled one, or answers the oldest. */
  ghost predicate TrailMoves(s: State, n: State, answer: bool, k: int) {
    var t := Trail(s);
    if k < 0 then Trail(n) == t && !answer
    else k < |t| && Trail(n) == DropAt(t, k) && if answer then k == 0 && s.ui.Answering? else t[k] in s.cancelled
  }

  lemma CutMiddle(a: seq<HoldId>, x: HoldId, b: seq<HoldId>)
    ensures DropAt(a + [x] + b, |a|) == a + b && (a + [x] + b)[|a|] == x
  {
  }

  lemma WatchTrail(s: State, n: State, a: Action) returns (k: int)
    requires Can(s, a) && (a.Receive? || a.Dispatch?) && n == DoConsumer(s, a)
    ensures TrailMoves(s, n, false, k)
  {
    k := -1;
    var front := InHand(s.ui, s.shown) + s.dispatch;
    if a.Receive? {
      assert Opt(s.watch) + s.queue == Opt(n.watch) + n.queue;
      assert Trail(s) == front + (Opt(s.watch) + s.queue) && Trail(n) == front + (Opt(n.watch) + n.queue);
    } else {
      var id := s.watch.value;
      assert Trail(s) == front + [id] + s.queue;
      if id in s.cancelled {
        k := |front|;
        CutMiddle(front, id, s.queue);
        assert Trail(n) == front + s.queue;
      } else {
        assert InHand(n.ui, n.shown) + n.dispatch == front + [id];
        assert Trail(n) == front + [id] + s.queue;
      }
    }
  }

  lemma TrailAround(f: seq<HoldId>, x: HoldId, d: seq<HoldId>, w: seq<HoldId>, q: seq<HoldId>)
    ensures f + ([x] + d) + w + q == f + [x] + (d + w + q)
    ensures (f + [x]) + d + w + q == f + [x] + (d + w + q)
    ensures f + d + w + q == f + (d + w + q)
  {
  }

  lemma CallbackTrail(s: State, n: State) returns (k: int)
    requires Can(s, RunCallback) && n == DoConsumer(s, RunCallback)
    ensures TrailMoves(s, n, false, k)
  {
    var id, shown, later := s.dispatch[0], Opt(s.shown), n.dispatch + Opt(s.watch) + s.queue;
    assert s.dispatch == [id] + n.dispatch;
    TrailAround(shown, id, n.dispatch, Opt(s.watch), s.queue);
    CutMiddle(shown, id, later);
    k := if id in s.cancelled then |shown| else -1;
  }

  lemma SendTrail(s: State, n: State)
    requires Can(s, SendReply) && n == DoConsumer(s, SendReply)
    ensures TrailMoves(s, n, true, 0)
  {
    hide DropAt;
    assert n.dispatch == s.dispatch && n.watch == s.watch && n.queue == s.queue;
    assert InHand(s.ui, s.shown) == [s.ui.id] + InHand(n.ui, n.shown);
    assert Trail(s) == [] + [s.ui.id] + Trail(n);
    CutMiddle([], s.ui.id, Trail(n));
  }

  lemma ShowTrail(s: State, n: State) returns (k: int)
    requires Can(s, Show) && n == DoConsumer(s, Show) && TrailOk(Trail(s), s)
    ensures TrailMoves(s, n, false, k)
  {
    k := -1;
    if s.shown.Some? {
      k := 0;
      assert Trail(s) == [] + [s.shown.value] + Trail(n);
      CutMiddle([], s.shown.value, Trail(n));
      assert |Trail(s)| >= 2;
    } else {
      assert InHand(s.ui, s.shown) == InHand(n.ui, n.shown);
    }
  }

  lemma OtherTrail(s: State, n: State, a: Action)
    requires Can(s, a)
    requires a.Toggle? || a.SwitchBypass? || a.ClearAfterOff? || a.Decide? || a.ForwardAllClick? || a.ReleaseAll?
    requires n == DoConsumer(s, a)
    ensures TrailMoves(s, n, false, -1)
  {
    assert InHand(n.ui, n.shown) == InHand(s.ui, s.shown);
    assert n.dispatch == s.dispatch && n.watch == s.watch && n.queue == s.queue;
  }

  /** All that a consumer step changes besides the trail: one more reply, or none. */
  ghost predicate Answers(s: State, n: State, answer: bool) {
    && n.holds == s.holds && n.cancelled == s.cancelled && s.gate.closed <= n.gate.closed
    && if answer then s.ui.Answering? && n.reply == s.reply[s.ui.id := s.ui.answer]
      && n.sent == s.sent[s.ui.id := s.ui.answer]
       else n.reply == s.reply && n.sent == s.sent
  }

  lemma ConsumerFrame(s: State, a: Action)
    requires Can(s, a) && !a.Call? && !a.HoldStep?
    ensures Answers(s, DoConsumer(s, a), a.SendReply?) && DoConsumer(s, a).sem == s.sem
  {
  }

  lemma GateKeepsChannels(s: State, a: Action)
    requires ChannelsOk(s) && Can(s, a) && !a.Call? && !a.HoldStep?
    ensures ChannelsOk(DoConsumer(s, a))
  {
    ConsumerFrame(s, a);
    var g, n := s.gate, DoConsumer(s, a).gate;
    assert g.nextChan <= n.nextChan && n.current < n.nextChan && n.closed <= g.closed + {g.current};
  }

  lemma TrailDrops(t: seq<HoldId>, k: nat, s: State)
    requires TrailOk(t, s) && k < |t|
    ensures TrailOk(DropAt(t, k), s)
    ensures t[k] !in DropAt(t, k)
    ensures forall i :: i in t && i != t[k] ==> i in DropAt(t, k)
  {
    forall i | i in t && i != t[k] ensures i in DropAt(t, k) {
      var j :| 0 <= j < |t| && t[j] == i;
      assert DropAt(t, k)[if j < k then j else j - 1] == i;
    }
  }

  lemma ConsumerKeepsPendings(s: State, n: State, answer: bool, k: int)
    requires TrailOk(Trail(s), s) && PendingsOk(s) && TrailMoves(s, n, answer, k) && Answers(s, n, answer)
    ensures TrailOk(Trail(n), n) && PendingsOk(n)
  {
    if k >= 0 {
      TrailDrops(Trail(s), k, s);
      assert answer ==> Trail(s)[0] == s.ui.id;
    }
  }

  lemma ConsumerKeepsOutcomes(s: State, n: State, answer: bool)
    requires TrailOk(Trail(s), s) && PendingsOk(s) && OutcomesOk(s) && Answers(s, n, answer)
    ensures OutcomesOk(n)
  {
    if answer {
      assert Trail(s)[0] == s.ui.id;
    }
  }

  lemma ConsumerKeepsTokens(s: State, n: State)
    requires TokensOk(s) && n.holds == s.holds && n.sem == s.sem
    ensures TokensOk(n)
  {
  }

  lemma ConsumerTrail(s: State, a: Action) returns (k: int)
    requires TrailOk(Trail(s), s) && Can(s, a) && !a.Call? && !a.HoldStep?
    ensures TrailMoves(s, DoConsumer(s, a), a.SendReply?, k)
  {
    hide TrailOk, Trail, TrailMoves, DoConsumer;
    var n := DoConsumer(s, a);
    k := -1;
    match a {
      case Receive | Dispatch => k := WatchTrail(s, n, a);
      case RunCallback => k := CallbackTrail(s, n);
      case Show => k := ShowTrail(s, n);
      case SendReply => k := 0; SendTrail(s, n);
      case _ => OtherTrail(s, n, a);
    }
  }

  lemma ConsumerKeeps(s: State, a: Action)
    requires Inv(s) && Can(s, a) && !a.Call? && !a.HoldStep?
    ensures Inv(DoConsumer(s, a))
  {
    hide TokensOk, ChannelsOk, TrailOk, PendingsOk, OutcomesOk, Trail, TrailMoves, DoConsumer;
    ConsumerFrame(s, a);
    GateKeepsChannels(s, a);
    var n := DoConsumer(s, a);
    var k := ConsumerTrail(s, a);
    ConsumerKeepsTokens(s, n);
    ConsumerKeepsPendings(s, n, a.SendReply?, k);
    ConsumerKeepsOutcomes(s, n, a.SendReply?);
  }

  lemma StepKeeps(s: State, a: Action)
    requires Inv(s) && Can(s, a)
    ensures Inv(Do(s, a))
  {
    hide Inv, DoHold, DoConsumer;
    match a
    case Call(id, req) => CallKeeps(s, id, req);
    case HoldStep(id, b) => HoldStepKeeps(s, id, b);
    case _ => ConsumerKeeps(s, a);
  }
}

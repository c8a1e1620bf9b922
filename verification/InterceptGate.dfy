/** The gate's own fields and critical sections, in place: channels are objects, closing one twice is an
    error, and each method is tied to the step function the protocol uses for it. */
module InterceptGate {
  import opened Wrappers
  import opened Lists
  import P = InterceptProtocol

  /** A signalling channel: only ever closed. Go panics when a closed channel is closed again. */
  class Signal {
    var closed: bool

    constructor ()
      ensures !closed
    {
      closed := false;
    }

    method Close()
      requires !closed
      modifies this
      ensures closed
    {
      closed := true;
    }
  }

  /** A request waiting for a decision, with its done channel and its reply buffer of one. */
  class PendingRequest {
    const request: P.Request
    const done: Signal
    var reply: Option<P.Decision>

    constructor (req: P.Request)
      ensures fresh(done) && !done.closed && reply.None? && request == req
    {
      request := req;
      done := new Signal();
      reply := None;
    }

    /** A send on the reply channel; it would block on a full buffer. */
    method Send(d: P.Decision)
      requires reply.None?
      modifies `reply
      ensures reply == Some(d)
    {
      reply := Some(d);
    }

    /** Safe to call any number of times. */
    method Cancel()
      modifies done
      ensures done.closed
    {
      if !done.closed {
        done.Close();
      }
    }

    method IsDone() returns (r: bool)
      ensures r == done.closed
    {
      r := done.closed;
    }
  }

  class Gate {
    var enabled: bool
    var bypass: Signal
    var bypassClosed: bool
    ghost var made: seq<Signal>   // every bypass channel this gate ever made, in order

    ghost predicate Valid()
      reads this, made
    {
      && made != [] && bypass == made[|made| - 1] && bypassClosed == bypass.closed
      && forall i, j :: 0 <= i < j < |made| ==> made[i] != made[j]
    }

    /** The protocol's view: a channel is its position in `made`. */
    ghost function View(): P.Gate
      requires Valid()
      reads this, made
    {
      P.Gate(enabled, |made| - 1, bypassClosed, set i: nat | i < |made| && made[i].closed, |made|)
    }

    constructor ()
      ensures Valid() && View() == P.Init().gate
    {
      var s := new Signal();
      enabled, bypass, bypassClosed := false, s, false;
      made := [s];
    }

    /** The `if !bypassClosed` section; it never closes a closed channel. */
    method CloseBypass()
      requires Valid()
      modifies this`bypassClosed, bypass
      ensures Valid() && View() == P.CloseBypass(old(View()))
    {
      if !bypassClosed {
        bypass.Close();
        bypassClosed := true;
        assert View().closed == old(View()).closed + {|made| - 1};
      }
    }

    method ReplaceBypass()
      requires Valid()
      modifies this`bypass, this`bypassClosed, this`made
      ensures Valid() && View() == P.ReplaceBypass(old(View()))
    {
      bypass := new Signal();
      bypassClosed := false;
      made := made + [bypass];
      assert View().closed == old(View()).closed;
    }

    /** The first critical section of SetEnabled. */
    method WriteFlag(v: bool)
      requires Valid()
      modifies `enabled
      ensures Valid() && View() == old(View()).(enabled := v)
    {
      enabled := v;
    }

    /** The second one; the protocol lets anything happen between the two. */
    method SwitchBypass(v: bool)
      requires Valid()
      modifies this`bypass, this`bypassClosed, this`made, bypass
      ensures Valid() && View() == if v then P.ReplaceBypass(old(View())) else P.CloseBypass(old(View()))
    {
      if !v {
        CloseBypass();
      } else {
        ReplaceBypass();
      }
    }

    /** Both with nothing in between. */
    method SetEnabled(v: bool)
      requires Valid()
      modifies this, bypass
      ensures Valid()
      ensures var g := old(View()).(enabled := v); View() == if v then P.ReplaceBypass(g) else P.CloseBypass(g)
    {
      WriteFlag(v);
      SwitchBypass(v);
    }

    method ForwardAll()
      requires Valid()
      modifies this, bypass
      ensures Valid() && View() == P.ReplaceBypass(P.CloseBypass(old(View())))
    {
      CloseBypass();
      ReplaceBypass();
    }
  }

  /** The pendings of a queue that are not cancelled. */
  function Live(queue: seq<PendingRequest>): seq<PendingRequest>
    reads set i | 0 <= i < |queue| :: queue[i].done
  {
    if queue == [] then [] else (if queue[0].done.closed then [] else [queue[0]]) + Live(queue[1..])
  }

  lemma LiveFrom(queue: seq<PendingRequest>, i: nat)
    requires i < |queue|
    ensures Live(queue[i..]) == if queue[i].done.closed then Live(queue[i + 1..]) else [queue[i]] + Live(queue[i + 1..])
  {
    assert queue[i..][1..] == queue[i + 1..];
    assert [] + Live(queue[i + 1..]) == Live(queue[i + 1..]);
  }

  lemma {:induction false} LiveMeans(queue: seq<PendingRequest>)
    ensures forall p :: p in Live(queue) <==> p in queue && !p.done.closed
  {
    if queue != [] {
      LiveMeans(queue[1..]);
      assert forall p :: p in queue <==> p == queue[0] || p in queue[1..];
    }
  }

  lemma LiveNone(queue: seq<PendingRequest>)
    ensures Live(queue[|queue|..]) == [] && queue[0..] == queue
  {
  }

  /** The UI's half: what is on display, and how it is answered. */
  class InterceptTab {
    var pending: PendingRequest?

    ghost predicate Valid()
      reads this, pending
    {
      pending != null ==> pending.reply.None?
    }

    /** watchQueue's first check: cancelled pendings are never handed to the UI. */
    static method WatchQueue(queue: seq<PendingRequest>) returns (dispatched: seq<PendingRequest>)
      ensures dispatched == Live(queue)
      ensures forall p :: p in dispatched <==> p in queue && !p.done.closed
    {
      hide Live;
      dispatched := [];
      LiveNone(queue);
      for i := 0 to |queue|
        invariant dispatched + Live(queue[i..]) == Live(queue)
      {
        LiveFrom(queue, i);
        var isDone := queue[i].IsDone();
        if isDone {
          continue;
        }
        Regroup(dispatched, [queue[i]], Live(queue[i + 1..]));
        dispatched := dispatched + [queue[i]];
      }
      LiveMeans(queue);
    }

    /** watchQueue's callback: the second check, then showRequest. */
    method Callback(p: PendingRequest)
      requires Valid() && p.reply.None?
      modifies `pending
      ensures Valid() && pending == if p.done.closed then old(pending) else p
    {
      var isDone := p.IsDone();
      if isDone {
        return;
      }
      pending := p;
    }

    /** Toggling off and Forward All: what is on display goes on unchanged, once. */
    method ReleaseShown()
      requires Valid()
      modifies this, pending
      ensures Valid() && pending == null
      ensures old(pending) != null ==> old(pending).reply == Some(P.Pass(old(pending).request))
    {
      if pending != null {
        var shown := pending;
        pending := null;
        shown.Send(P.Pass(shown.request));
      }
    }

    /** decide: the edited request if it parses, the original one if not, or a drop. */
    method Decide(forward: bool, edited: Option<P.Request>)
      requires Valid()
      modifies this, pending
      ensures Valid() && pending == null
      ensures old(pending) != null ==>
        var sent := if forward && edited.Some? then edited.value else old(pending).request;
        old(pending).reply == Some(P.Decision(forward, sent))
    {
      if pending == null {
        return;
      }
      var shown := pending;
      pending := null;
      if forward {
        var req := shown.request;
        if edited.Some? {
          req := edited.value;
        }
        shown.Send(P.Decision(true, req));
      } else {
        shown.Send(P.Decision(false, shown.request));
      }
    }
  }
}

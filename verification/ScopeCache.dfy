/** The scope cache and the single writer behind it. Any number of callers of InScope, AddScopeEntry and
    DeleteScopeEntry interleave with the write loop; a step is one critical section, one channel operation, one
    query or one closure. The table's versions are numbered by the writes that made them. */
module ScopeCache {
  import opened Words
  import opened Wrappers
  import HP = HostPort

  datatype Entry = Entry(id: nat, host: string)

  // ---- matching ----

  /** The host itself or one of its subdomains. */
  predicate Covers(entry: string, host: string) { host == entry || HasSuffix(host, "." + entry) }

  /** Some entry covers the host; without entries everything is in scope. */
  predicate Matches(entries: seq<Entry>, host: string) {
    entries == [] || exists i :: 0 <= i < |entries| && Covers(entries[i].host, host)
  }

  /** The host without its port. */
  function Bare(host: string): string {
    var sp := HP.SplitHostPort(host);
    if sp.HostPort? then sp.host else host
  }

  method MatchesScope(entries: seq<Entry>, host: string) returns (r: bool)
    ensures r <==> Matches(entries, host)
  {
    if |entries| == 0 {
      return true;
    }
    for i := 0 to |entries|
      invariant forall k :: 0 <= k < i ==> !Covers(entries[k].host, host)
    {
      if host == entries[i].host || HasSuffix(host, "." + entries[i].host) {
        return true;
      }
    }
    return false;
  }

  /** An entry covers its own host and, of others, exactly those that end with a dot and the entry. */
  lemma CoversMeans(entry: string, host: string)
    ensures Covers(entry, host) <==> host == entry || exists sub: string :: host == sub + "." + entry
    ensures Covers(entry, host) && host != entry ==> |entry| < |host| && host[|host| - |entry| - 1] == '.'
  {
    var t := "." + entry;
    if HasSuffix(host, t) {
      var sub := host[..|host| - |t|];
      assert host == sub + t == sub + "." + entry;
      assert host[|host| - |t|..][0] == '.';
    }
    if sub: string :| host == sub + "." + entry {
      assert host == sub + t && host[|host| - |t|..] == t;
    }
  }

  /** A host is looked up without its port, with or without brackets; a host without a port as it is. */
  lemma BareMeans(host: string, port: string)
    requires HP.NoBrackets(host) && HP.NoBrackets(port) && ':' !in port
    ensures Bare(HP.JoinHostPort(host, port)) == host && (':' !in host ==> Bare(host) == host)
    ensures Bare("[" + host + "]:" + port) == host
  {
    hide HP.SplitHostPort;
    HP.SplitJoin(host, port);
    HP.BracketedSplits(host, port);
    NoPort(host);
  }

  lemma NoPort(host: string)
    ensures ':' !in host ==> !HP.SplitHostPort(host).HostPort?
  {
  }

  // ---- the cache's fields and critical sections ----

  datatype Cache = Cache(entries: seq<Entry>, isSet: bool)

  function Invalidated(): Cache { Cache([], false) }

  /** The cache after the fill under the write lock; `rows` is what the query gave, None when it failed. */
  function Filled(c: Cache, rows: Option<seq<Entry>>): Cache {
    if c.isSet || rows.None? then c else Cache(rows.value, true)
  }

  class Store {
    var scopeCache: seq<Entry>
    var scopeCacheSet: bool

    ghost function View(): Cache
      reads this
    {
      Cache(scopeCache, scopeCacheSet)
    }

    constructor ()
      ensures View() == Invalidated()
    {
      scopeCache, scopeCacheSet := [], false;
    }

    method InvalidateScopeCache()
      modifies this
      ensures View() == Invalidated()
    {
      scopeCache := [];
      scopeCacheSet := false;
    }

    /** The read-locked part of InScope: a hit, or None. */
    method Lookup() returns (hit: Option<seq<Entry>>)
      ensures hit == if scopeCacheSet then Some(scopeCache) else None
    {
      if scopeCacheSet {
        return Some(scopeCache);
      }
      return None;
    }

    /** The write-locked part. */
    method Fill(rows: Option<seq<Entry>>) returns (entries: seq<Entry>)
      modifies this
      ensures View() == Filled(old(View()), rows) && entries == View().entries
    {
      if !scopeCacheSet {
        if rows.Some? {
          scopeCache := rows.value;
          scopeCacheSet := true;
        }
      }
      entries := scopeCache;
    }

    /** InScope when nothing comes in between; `rows` is what a query would give. */
    method InScope(host: string, rows: Option<seq<Entry>>) returns (r: bool)
      modifies this
      ensures View() == Filled(old(View()), rows) && (r <==> Matches(View().entries, Bare(host)))
    {
      hide Matches;
      var bare := host;
      var sp := HP.SplitHostPort(host);
      if sp.HostPort? {
        bare := sp.host;
      }
      var hit := Lookup();
      if hit.Some? {
        r := MatchesScope(hit.value, bare);
        return;
      }
      var entries := Fill(rows);
      r := MatchesScope(entries, bare);
    }
  }

  // ---- the system ----

  /** A closure handed to the write loop; Other stands for writes to other tables. */
  datatype Op = Add(host: string) | Delete(id: nat) | Other

  datatype WriterPc = Calling | Accepted | Ran(ok: bool, version: nat) | Returned(ok: bool, version: nat)
  datatype Writer = Writer(op: Op, pc: WriterPc)

  datatype ReaderPc =
    | Starting | Missed | Holding | Loaded(version: nat) | LoadFailed
    | Done(version: nat, failed: bool, inScope: bool)

  /** `floor` is the newest version whose write had returned when the call began. */
  datatype Reader = Reader(host: string, floor: nat, pc: ReaderPc)

  datatype System = System(
    tables: seq<seq<Entry>>, ops: seq<Op>, ids: seq<nat>,
    cache: Cache, cached: nat, holder: Option<nat>, settled: nat,
    writers: seq<Writer>, readers: seq<Reader>,
    queue: seq<nat>, running: Option<nat>, accepted: seq<nat>, executed: seq<nat>)

  datatype Event =
    | Call(op: Op) | Accept(w: nat) | Take | Run(ok: bool, id: nat) | Return(w: nat)
    | Ask(host: string) | TryRead(r: nat) | Acquire(r: nat) | Query(r: nat, ok: bool) | Publish(r: nat)

  const QUEUE_SIZE := 256

  function Init(): System {
    System([[]], [], [], Invalidated(), 0, None, 0, [], [], [], None, [], [])
  }

  function Version(s: System): nat
    requires s.tables != []
  {
    |s.tables| - 1
  }

  function Without(rows: seq<Entry>, id: nat): seq<Entry> {
    if rows == [] then [] else (if rows[0].id == id then [] else [rows[0]]) + Without(rows[1..], id)
  }

  /** The scope table after a write; a new row gets the id the database gives it. */
  function Apply(rows: seq<Entry>, op: Op, id: nat): seq<Entry> {
    match op
    case Add(h) => rows + [Entry(id, h)]
    case Delete(d) => Without(rows, d)
    case Other => rows
  }

  function SetWriter(s: System, w: nat, pc: WriterPc): System
    requires w < |s.writers|
  {
    s.(writers := s.writers[w := s.writers[w].(pc := pc)])
  }

  function SetReader(s: System, r: nat, pc: ReaderPc): System
    requires r < |s.readers|
  {
    s.(readers := s.readers[r := s.readers[r].(pc := pc)])
  }

  /** Writes to the scope table clear the cache when they succeeded. */
  predicate Clears(w: Writer) {
    w.pc.Ran? && w.pc.ok && !w.op.Other?
  }

  predicate Can(s: System, ev: Event) {
    s.tables != [] &&
    match ev
    case Call(_) => true
    case Accept(w) => w < |s.writers| && s.writers[w].pc.Calling? && |s.queue| < QUEUE_SIZE
    case Take => s.running.None? && s.queue != []
    case Run(_, _) => s.running.Some? && s.running.value < |s.writers|
    case Return(w) => w < |s.writers| && s.writers[w].pc.Ran? && (Clears(s.writers[w]) ==> s.holder.None?)
    case Ask(_) => true
    case TryRead(r) => r < |s.readers| && s.readers[r].pc.Starting? && s.holder.None?
    case Acquire(r) => r < |s.readers| && s.readers[r].pc.Missed? && s.holder.None?
    case Query(r, _) => r < |s.readers| && s.readers[r].pc.Holding? && !s.cache.isSet
    case Publish(r) =>
      r < |s.readers| && ((s.readers[r].pc.Loaded? && s.readers[r].pc.version < |s.tables|)
                          || s.readers[r].pc.LoadFailed? || (s.readers[r].pc.Holding? && s.cache.isSet))
  }

  function RunClosure(s: System, w: nat, ok: bool, id: nat): System
    requires w < |s.writers| && s.tables != []
  {
    var op := s.writers[w].op;
    var n := if ok && !op.Other?
      then s.(tables := s.tables + [Apply(s.tables[Version(s)], op, id)], ops := s.ops + [op], ids := s.ids + [id])
      else s;
    SetWriter(n, w, Ran(ok, Version(n))).(running := None, executed := s.executed + [w])
  }

  function ReturnWriter(s: System, w: nat): System
    requires w < |s.writers| && s.writers[w].pc.Ran?
  {
    var pc := s.writers[w].pc;
    var n := SetWriter(s, w, Returned(pc.ok, pc.version));
    if Clears(s.writers[w]) then
      n.(cache := Invalidated(), settled := if s.settled < pc.version then pc.version else s.settled)
    else n
  }

  function PublishReader(s: System, r: nat): System
    requires Can(s, Publish(r))
  {
    var pc, host := s.readers[r].pc, Bare(s.readers[r].host);
    if pc.Loaded? then
      SetReader(s, r, Done(pc.version, false, Matches(s.tables[pc.version], host)))
        .(holder := None, cache := Filled(s.cache, Some(s.tables[pc.version])), cached := pc.version)
    else if pc.LoadFailed? then SetReader(s, r, Done(0, true, Matches(s.cache.entries, host))).(holder := None)
    else SetReader(s, r, Done(s.cached, false, Matches(s.cache.entries, host))).(holder := None)
  }

  function Step(s: System, ev: Event): System
    requires Can(s, ev)
  {
    match ev
    case Call(op) => s.(writers := s.writers + [Writer(op, Calling)])
    case Accept(w) => SetWriter(s, w, Accepted).(queue := s.queue + [w], accepted := s.accepted + [w])
    case Take => s.(running := Some(s.queue[0]), queue := s.queue[1..])
    case Run(ok, id) => RunClosure(s, s.running.value, ok, id)
    case Return(w) => ReturnWriter(s, w)
    case Ask(h) => s.(readers := s.readers + [Reader(h, s.settled, Starting)])
    case TryRead(r) =>
      var host := Bare(s.readers[r].host);
      SetReader(s, r, if s.cache.isSet then Done(s.cached, false, Matches(s.cache.entries, host)) else Missed)
    case Acquire(r) => SetReader(s, r, Holding).(holder := Some(r))
    case Query(r, ok) => SetReader(s, r, if ok then Loaded(Version(s)) else LoadFailed)
    case Publish(r) => PublishReader(s, r)
  }

  // ---- invariant ----

  predicate Inside(pc: ReaderPc) { pc.Holding? || pc.Loaded? || pc.LoadFailed? }

  /** The lock is held by exactly the reader that is inside. */
  ghost predicate LockOk(s: System) {
    && (s.holder.Some? ==> s.holder.value < |s.readers| && Inside(s.readers[s.holder.value].pc))
    && forall r :: 0 <= r < |s.readers| && Inside(s.readers[r].pc) ==> s.holder == Some(r)
  }

  /** A set cache is a version of the table that no returned write is newer than; the same for rows just loaded. */
  ghost predicate CacheOk(s: System) {
    && s.settled < |s.tables|
    && (if s.cache.isSet then s.settled <= s.cached < |s.tables| && s.cache.entries == s.tables[s.cached]
        else s.cache.entries == [])
    && forall r :: 0 <= r < |s.readers| && Inside(s.readers[r].pc) && !s.readers[r].pc.Holding? ==>
        !s.cache.isSet && (s.readers[r].pc.Loaded? ==> s.settled <= s.readers[r].pc.version < |s.tables|)
  }

  /** What a finished call of InScope has answered. */
  ghost predicate AnswersOk(s: System) {
    forall r :: 0 <= r < |s.readers| ==>
      var x := s.readers[r];
      && x.floor <= s.settled
      && (x.pc.Done? && !x.pc.failed ==>
            x.floor <= x.pc.version < |s.tables| && (x.pc.inScope <==> Matches(s.tables[x.pc.version], Bare(x.host))))
      && (x.pc.Done? && x.pc.failed ==> x.pc.inScope)
  }

  /** Each version is the effect of one write on the one before. */
  ghost predicate VersionsOk(s: System) {
    && |s.tables| == |s.ops| + 1 && |s.ids| == |s.ops|
    && forall k :: 0 <= k < |s.ops| ==> s.tables[k + 1] == Apply(s.tables[k], s.ops[k], s.ids[k])
  }

  predicate Made(w: Writer, v: nat) {
    !w.op.Other? && (w.pc.Ran? || w.pc.Returned?) && w.pc.ok && w.pc.version == v
  }

  predicate WriterOk(s: System, w: Writer) {
    !w.op.Other? && (w.pc.Ran? || w.pc.Returned?) && w.pc.ok ==>
      && 0 < w.pc.version < |s.tables| && w.pc.version <= |s.ops| && s.ops[w.pc.version - 1] == w.op
      && (w.pc.Returned? ==> w.pc.version <= s.settled)
  }

  ghost predicate Owned(s: System, v: nat) {
    exists w :: 0 <= w < |s.writers| && Made(s.writers[w], v)
  }

  /** Every version has its writer, every writer its version, and no returned write is above `settled`. */
  ghost predicate WritersOk(s: System) {
    && (forall v: nat :: 0 < v < |s.tables| ==> Owned(s, v))
    && (forall w :: 0 <= w < |s.writers| ==> WriterOk(s, s.writers[w]))
  }

  function Running(s: System): seq<nat> { if s.running.Some? then [s.running.value] else [] }

  /** Accepted closures run one at a time, in the order they were accepted, each once. */
  ghost predicate QueueOk(s: System) {
    && s.accepted == s.executed + Running(s) + s.queue
    && (forall i, j :: 0 <= i < j < |s.accepted| ==> s.accepted[i] != s.accepted[j])
    && (forall w :: w in s.accepted ==> w < |s.writers|)
    && (forall w :: 0 <= w < |s.writers| ==> (w in s.accepted <==> !s.writers[w].pc.Calling?))
    && (forall w :: 0 <= w < |s.writers| ==> (w in s.executed <==> s.writers[w].pc.Ran? || s.writers[w].pc.Returned?))
  }

  ghost predicate Inv(s: System) {
    s.tables != [] && LockOk(s) && CacheOk(s) && AnswersOk(s) && VersionsOk(s) && WritersOk(s) && QueueOk(s)
  }

  lemma InitInv()
    ensures Inv(Init())
  {
  }

  lemma LockKept(s: System, ev: Event)
    requires LockOk(s) && Can(s, ev)
    ensures LockOk(Step(s, ev))
  {
    hide Matches, Bare, Apply, Filled;
  }

  lemma CacheKept(s: System, ev: Event)
    requires LockOk(s) && CacheOk(s) && WritersOk(s) && VersionsOk(s) && Can(s, ev)
    ensures CacheOk(Step(s, ev))
  {
    hide Matches, Bare, Apply;
    if ev.Return? {
      assert WriterOk(s, s.writers[ev.w]);
    }
  }

  lemma NoEntriesMatchAll(host: string)
    ensures Matches([], host)
  {
  }

  lemma AnswersKept(s: System, ev: Event)
    requires LockOk(s) && CacheOk(s) && AnswersOk(s) && Can(s, ev)
    ensures AnswersOk(Step(s, ev))
  {
    hide Matches, Bare, Apply, Covers;
    if ev.Publish? && s.readers[ev.r].pc.LoadFailed? {
      NoEntriesMatchAll(Bare(s.readers[ev.r].host));
    }
  }

  lemma VersionsKept(s: System, ev: Event)
    requires VersionsOk(s) && Can(s, ev)
    ensures VersionsOk(Step(s, ev))
  {
    hide Matches, Bare, Apply, Filled;
  }

  lemma WritersKept(s: System, ev: Event)
    requires WritersOk(s) && VersionsOk(s) && QueueOk(s) && Can(s, ev)
    ensures WritersOk(Step(s, ev))
  {
    hide Matches, Bare, Apply, Filled, VersionsOk, QueueOk, WritersOk;
    if ev.Run? {
      RunKeepsWriters(s, ev.ok, ev.id);
    } else {
      OtherKeepsWriters(s, ev);
    }
  }

  lemma RunKeepsWriters(s: System, ok: bool, id: nat)
    requires WritersOk(s) && VersionsOk(s) && QueueOk(s) && Can(s, Run(ok, id))
    ensures WritersOk(Step(s, Run(ok, id)))
  {
    RunnerIsNew(s);
    hide Apply, QueueOk;
    var n := RunClosure(s, s.running.value, ok, id);
    forall w | 0 <= w < |n.writers| ensures WriterOk(n, n.writers[w]) {
      assert WriterOk(s, s.writers[w]);
    }
    forall v: nat | 0 < v < |n.tables| ensures Owned(n, v) {
      if v < |s.tables| {
        assert Owned(s, v);
        var w :| 0 <= w < |s.writers| && Made(s.writers[w], v);
        assert Made(n.writers[w], v);
      } else {
        assert Made(n.writers[s.running.value], v);
      }
    }
  }

  lemma OtherKeepsWriters(s: System, ev: Event)
    requires WritersOk(s) && Can(s, ev) && !ev.Run?
    ensures WritersOk(Step(s, ev))
  {
    hide Matches, Bare, Filled;
    var n := Step(s, ev);
    forall w | 0 <= w < |n.writers| ensures WriterOk(n, n.writers[w]) {
      assert w < |s.writers| ==> WriterOk(s, s.writers[w]);
    }
    forall v: nat | 0 < v < |n.tables| ensures Owned(n, v) {
      assert Owned(s, v);
      var w :| 0 <= w < |s.writers| && Made(s.writers[w], v);
      assert Made(n.writers[w], v);
    }
  }

  /** The closure being run has not run before. */
  lemma RunnerIsNew(s: System)
    requires QueueOk(s) && s.running.Some? && s.running.value < |s.writers|
    ensures s.writers[s.running.value].pc.Accepted? && s.running.value !in s.executed
  {
    var w, k := s.running.value, |s.executed|;
    assert s.accepted[k] == w;
    assert w in s.accepted;
    forall i | 0 <= i < |s.executed| ensures s.executed[i] != w {
      assert s.accepted[i] == s.executed[i];
    }
  }

  lemma QueueKept(s: System, ev: Event)
    requires QueueOk(s) && Can(s, ev)
    ensures QueueOk(Step(s, ev))
  {
    hide QueueOk, Matches, Bare, Apply, Filled, Step;
    match ev
    case Call(op) => CallKeepsQueue(s, op);
    case Accept(w) => AcceptKeepsQueue(s, w);
    case Take => TakeKeepsQueue(s);
    case Run(ok, id) => RunKeepsQueue(s, ok, id);
    case Return(w) => ReturnKeepsQueue(s, w);
    case _ => ReaderKeepsQueue(s, ev);
  }

  lemma CallKeepsQueue(s: System, op: Op)
    requires QueueOk(s) && Can(s, Call(op))
    ensures QueueOk(Step(s, Call(op)))
  {
    forall i | 0 <= i < |s.executed| ensures s.executed[i] != |s.writers| {
      assert s.accepted[i] == s.executed[i] && s.accepted[i] in s.accepted;
    }
  }

  lemma AcceptKeepsQueue(s: System, w: nat)
    requires QueueOk(s) && Can(s, Accept(w))
    ensures QueueOk(Step(s, Accept(w)))
  {
    assert s.executed + Running(s) + (s.queue + [w]) == (s.executed + Running(s) + s.queue) + [w];
    AcceptDistinct(s.accepted, w);
  }

  lemma TakeKeepsQueue(s: System)
    requires QueueOk(s) && Can(s, Take)
    ensures QueueOk(Step(s, Take))
  {
    assert s.queue == [s.queue[0]] + s.queue[1..];
    assert s.executed + [] + s.queue == s.executed + [s.queue[0]] + s.queue[1..];
  }

  lemma RunKeepsQueue(s: System, ok: bool, id: nat)
    requires QueueOk(s) && Can(s, Run(ok, id))
    ensures QueueOk(Step(s, Run(ok, id)))
  {
    hide Apply;
    RunnerIsNew(s);
    var w := s.running.value;
    assert s.accepted[|s.executed|] == w;
    assert s.executed + [w] + s.queue == (s.executed + [w]) + [] + s.queue;
  }

  lemma ReturnKeepsQueue(s: System, w: nat)
    requires QueueOk(s) && Can(s, Return(w))
    ensures QueueOk(Step(s, Return(w)))
  {
  }

  lemma ReaderKeepsQueue(s: System, ev: Event)
    requires QueueOk(s) && Can(s, ev) && (ev.Ask? || ev.TryRead? || ev.Acquire? || ev.Query? || ev.Publish?)
    ensures QueueOk(Step(s, ev))
  {
    hide Matches, Bare, Filled;
  }

  lemma AcceptDistinct(a: seq<nat>, w: nat)
    requires w !in a && forall i, j :: 0 <= i < j < |a| ==> a[i] != a[j]
    ensures forall i, j :: 0 <= i < j < |a + [w]| ==> (a + [w])[i] != (a + [w])[j]
  {
  }

  lemma StepKeeps(s: System, ev: Event)
    requires Inv(s) && Can(s, ev)
    ensures Inv(Step(s, ev))
  {
    LockKept(s, ev);
    CacheKept(s, ev);
    AnswersKept(s, ev);
    VersionsKept(s, ev);
    WritersKept(s, ev);
    QueueKept(s, ev);
    hide LockOk, CacheOk, AnswersOk, VersionsOk, WritersOk, QueueOk, Matches, Bare, Apply;
  }

  // ---- runs ----

  ghost predicate Legal(s: System, es: seq<Event>)
    decreases |es|
  {
    es == [] || (Can(s, es[0]) && Legal(Step(s, es[0]), es[1..]))
  }

  ghost function RunAll(s: System, es: seq<Event>): System
    requires Legal(s, es)
    decreases |es|
  {
    if es == [] then s else RunAll(Step(s, es[0]), es[1..])
  }

  lemma {:induction false} RunKeeps(s: System, es: seq<Event>)
    requires Inv(s) && Legal(s, es)
    ensures Inv(RunAll(s, es))
    decreases |es|
  {
    hide Inv, Step, Can;
    if es != [] {
      StepKeeps(s, es[0]);
      RunKeeps(Step(s, es[0]), es[1..]);
    }
  }

  ghost predicate Reachable(s: System) {
    exists es :: Legal(Init(), es) && RunAll(Init(), es) == s
  }

  lemma ReachableInv(s: System)
    requires Reachable(s)
    ensures Inv(s)
  {
    hide Inv;
    var es :| Legal(Init(), es) && RunAll(Init(), es) == s;
    InitInv();
    RunKeeps(Init(), es);
  }

  // ---- what holds in every reachable state ----

  /** If the cache is set it is the scope table, unless a write has committed and not invalidated yet. */
  lemma CacheAgrees(s: System)
    requires Reachable(s) && s.cache.isSet && forall w :: 0 <= w < |s.writers| ==> !Clears(s.writers[w])
    ensures s.tables != [] && s.cache.entries == s.tables[Version(s)]
  {
    ReachableInv(s);
    hide LockOk, AnswersOk, VersionsOk, QueueOk;
    if Version(s) > 0 {
      assert Owned(s, Version(s));
      var w :| 0 <= w < |s.writers| && Made(s.writers[w], Version(s));
      assert !Clears(s.writers[w]) && WriterOk(s, s.writers[w]);
    }
  }

  /** A call of InScope whose query did not fail answers from a version no older than any write that had
      returned when it began. */
  lemma NoReturnedWriteIgnored(s: System, r: nat)
    requires Reachable(s) && r < |s.readers| && s.readers[r].pc.Done? && !s.readers[r].pc.failed
    ensures var x := s.readers[r];
      x.floor <= x.pc.version < |s.tables| && (x.pc.inScope <==> Matches(s.tables[x.pc.version], Bare(x.host)))
  {
    ReachableInv(s);
  }

  /** The floor of a call that begins now is at or above the version of every successful write that returned. */
  lemma FloorCoversReturned(s: System, w: nat, host: string)
    requires Reachable(s) && w < |s.writers| && s.writers[w].pc.Returned? && s.writers[w].pc.ok
      && !s.writers[w].op.Other?
    ensures Can(s, Ask(host))
    ensures var x := Step(s, Ask(host)).readers[|s.readers|]; s.writers[w].pc.version <= x.floor
    ensures 0 < s.writers[w].pc.version <= |s.ops| && s.ops[s.writers[w].pc.version - 1] == s.writers[w].op
  {
    ReachableInv(s);
    assert WriterOk(s, s.writers[w]);
  }

  lemma {:induction false} WithoutKeeps(rows: seq<Entry>, id: nat, e: Entry)
    ensures e in Without(rows, id) <==> e in rows && e.id != id
  {
    if rows != [] {
      WithoutKeeps(rows[1..], id, e);
      assert e in rows <==> e == rows[0] || e in rows[1..];
    }
  }

  /** An added entry is in every later version of the table until a deletion of its id. */
  lemma {:induction false} AddedStays(s: System, v: nat, u: nat)
    requires VersionsOk(s) && 0 < v <= u < |s.tables| && s.ops[v - 1].Add?
    requires forall k :: v <= k < u ==> s.ops[k] != Delete(s.ids[v - 1])
    ensures Entry(s.ids[v - 1], s.ops[v - 1].host) in s.tables[u]
    decreases u - v
  {
    var e := Entry(s.ids[v - 1], s.ops[v - 1].host);
    if u == v {
      assert s.tables[v] == Apply(s.tables[v - 1], s.ops[v - 1], s.ids[v - 1]);
      assert s.tables[v][|s.tables[v - 1]|] == e;
    } else {
      AddedStays(s, v, u - 1);
      assert s.tables[u] == Apply(s.tables[u - 1], s.ops[u - 1], s.ids[u - 1]);
      if s.ops[u - 1].Delete? {
        WithoutKeeps(s.tables[u - 1], s.ops[u - 1].id, e);
      }
    }
  }

  /** A deleted entry is in no later version, unless a later row has its id again. */
  lemma {:induction false} DeletedIsGone(s: System, v: nat, u: nat, e: Entry)
    requires VersionsOk(s) && 0 < v <= u < |s.tables| && s.ops[v - 1] == Delete(e.id)
    requires forall k :: v <= k < u ==> !(s.ops[k].Add? && s.ids[k] == e.id)
    ensures e !in s.tables[u]
    decreases u - v
  {
    assert s.tables[u] == Apply(s.tables[u - 1], s.ops[u - 1], s.ids[u - 1]);
    if u == v {
      WithoutKeeps(s.tables[u - 1], e.id, e);
    } else {
      DeletedIsGone(s, v, u - 1, e);
      if s.ops[u - 1].Delete? {
        WithoutKeeps(s.tables[u - 1], s.ops[u - 1].id, e);
      }
    }
  }

  /** A host covered by an entry that was added before the call began is in scope for the call, unless the entry
      had been deleted again in the version the call answers from. */
  lemma AddedIsInScope(s: System, r: nat, v: nat)
    requires Reachable(s) && r < |s.readers| && s.readers[r].pc.Done? && !s.readers[r].pc.failed
    requires 0 < v <= s.readers[r].floor && v <= |s.ops| && s.ops[v - 1].Add? && v <= |s.ids|
    requires forall k :: v <= k < s.readers[r].pc.version && k < |s.ops| ==> s.ops[k] != Delete(s.ids[v - 1])
    requires Covers(s.ops[v - 1].host, Bare(s.readers[r].host))
    ensures s.readers[r].pc.inScope
  {
    hide Covers;
    ReachableInv(s);
    NoReturnedWriteIgnored(s, r);
    var u := s.readers[r].pc.version;
    AddedStays(s, v, u);
    var e := Entry(s.ids[v - 1], s.ops[v - 1].host);
    var i :| 0 <= i < |s.tables[u]| && s.tables[u][i] == e;
    assert Covers(s.tables[u][i].host, Bare(s.readers[r].host));
  }

  /** An entry whose deletion had returned before the call began plays no part in the answer, unless a row with its
      id was added again: the host is in scope exactly when another entry covers it or none is left. */
  lemma DeletedPlaysNoPart(s: System, r: nat, v: nat, id: nat)
    requires Reachable(s) && r < |s.readers| && s.readers[r].pc.Done? && !s.readers[r].pc.failed
    requires 0 < v <= s.readers[r].floor && v <= |s.ops| && s.ops[v - 1] == Delete(id) && |s.ids| == |s.ops|
    requires forall k :: v <= k < s.readers[r].pc.version && k < |s.ops| ==> !(s.ops[k].Add? && s.ids[k] == id)
    ensures s.readers[r].pc.version < |s.tables|
    ensures var x, rows := s.readers[r], s.tables[s.readers[r].pc.version];
      && (forall i :: 0 <= i < |rows| ==> rows[i].id != id)
      && (x.pc.inScope <==>
            rows == [] || exists i :: 0 <= i < |rows| && rows[i].id != id && Covers(rows[i].host, Bare(x.host)))
  {
    hide Covers, Bare;
    ReachableInv(s);
    NoReturnedWriteIgnored(s, r);
    var u := s.readers[r].pc.version;
    var rows := s.tables[u];
    forall i | 0 <= i < |rows| ensures rows[i].id != id {
      if rows[i].id == id {
        DeletedIsGone(s, v, u, rows[i]);
      }
    }
  }

  /** A write has succeeded or failed only after its closure ran; closures run in the order they were accepted,
      each exactly once, never two at a time. */
  lemma RanOnceInOrder(s: System, w: nat)
    requires Reachable(s) && w < |s.writers| && (s.writers[w].pc.Ran? || s.writers[w].pc.Returned?)
    ensures s.executed <= s.accepted && |s.accepted| == |s.executed| + |Running(s)| + |s.queue|
    ensures exists i :: 0 <= i < |s.executed| && s.executed[i] == w
                        && forall j :: 0 <= j < |s.accepted| && s.accepted[j] == w ==> j == i
  {
    ReachableInv(s);
    assert w in s.executed;
    var i :| 0 <= i < |s.executed| && s.executed[i] == w;
    assert s.accepted[i] == w;
  }

  /** A failed query is answered from an empty cache, which puts every host in scope. */
  lemma FailedQueryIsInScope(s: System, r: nat)
    requires Reachable(s) && r < |s.readers| && s.readers[r].pc.Done? && s.readers[r].pc.failed
    ensures s.readers[r].pc.inScope
  {
    ReachableInv(s);
  }
}

/** The read-only view parses in the background. A generation number tells the newest parse from the stale
    ones; SetText, layout and the end of a parse interleave at every lock release. A step is one critical
    section; a call of startProcessing that has been decided on but not begun is kept in `calls`. */
module TextView {
  import opened Wrappers

  /** Where the shown lines come from: the text and width they were parsed from, by which generation. */
  datatype Shown = Nothing | Parsed(text: string, width: real, gen: nat)

  datatype View = View(gen: nat, processing: bool, pendingText: string, width: real, lines: Shown)

  /** A call of startProcessing, and the parse it starts. */
  datatype Call = Call(text: string, width: real)
  datatype Job = Job(gen: nat, text: string, width: real)

  function Abs(x: real): real { if x < 0.0 then -x else x }

  // ---- the critical sections ----

  function SetTextSpec(v: View, s: string): (View, Option<Call>) {
    (v.(pendingText := s), if v.processing || v.width < 1.0 then None else Some(Call(s, v.width)))
  }

  function Start(v: View, c: Call): (View, Job) {
    (v.(gen := v.gen + 1, processing := true), Job(v.gen + 1, c.text, c.width))
  }

  function Layout(v: View, avail: real): (View, Option<Call>) {
    if avail < 1.0 then (v, None)
    else
      (v.(width := avail),
       if v.pendingText != "" && (Abs(v.width - avail) > 4.0 || v.width < 1.0) then Some(Call(v.pendingText, avail))
         else None)
  }

  function Finish(v: View, j: Job): (View, Option<Call>) {
    if j.gen != v.gen then (v, None)
    else
      (v.(lines := Parsed(j.text, j.width, j.gen), processing := false),
       if v.pendingText != j.text && v.pendingText != "" && v.width > 0.0 then Some(Call(v.pendingText, v.width))
         else None)
  }

  // ---- the class ----

  class TextView {
    var gen: nat
    var processing: bool
    var pendingText: string
    var rawFull: string
    var lastWrapWidth: real
    var lines: Shown

    ghost function Abstract(): View
      reads this
    {
      View(gen, processing, pendingText, lastWrapWidth, lines)
    }

    constructor ()
      ensures Abstract() == Init().view && rawFull == ""
    {
      gen, processing, pendingText, rawFull, lastWrapWidth, lines := 0, false, "", "", 0.0, Nothing;
    }

    /** SetText up to its unlock; the result is the call of startProcessing that follows, if any. */
    method SetText(s: string) returns (next: Option<Call>)
      modifies `pendingText, `rawFull
      ensures (Abstract(), next) == SetTextSpec(old(Abstract()), s) && rawFull == s
    {
      pendingText := s;
      rawFull := s;
      var alreadyProcessing := processing;
      var currentWidth := lastWrapWidth;
      if alreadyProcessing || currentWidth < 1.0 {
        return None;
      }
      return Some(Call(s, currentWidth));
    }

    method StartProcessing(s: string, wrapWidth: real) returns (job: Job)
      modifies `gen, `processing
      ensures (Abstract(), job) == Start(old(Abstract()), Call(s, wrapWidth))
    {
      gen := gen + 1;
      var currentGen := gen;
      processing := true;
      return Job(currentGen, s, wrapWidth);
    }

    method CheckWrapWidth(availWidth: real) returns (next: Option<Call>)
      modifies `lastWrapWidth
      ensures (Abstract(), next) == Layout(old(Abstract()), availWidth)
    {
      if availWidth < 1.0 {
        return None;
      }
      var prevWidth := lastWrapWidth;
      lastWrapWidth := availWidth;
      if pendingText == "" {
        return None;
      }
      if Abs(prevWidth - availWidth) > 4.0 || prevWidth < 1.0 {
        return Some(Call(pendingText, availWidth));
      }
      return None;
    }

    /** What a parse does when it is done. */
    method Publish(job: Job) returns (next: Option<Call>)
      modifies `lines, `processing
      ensures (Abstract(), next) == Finish(old(Abstract()), job)
    {
      if job.gen != gen {
        return None;
      }
      lines := Parsed(job.text, job.width, job.gen);
      processing := false;
      var pending := "";
      if pendingText != job.text {
        pending := pendingText;
      }
      var latestWidth := lastWrapWidth;
      if pending != "" && latestWidth > 0.0 {
        return Some(Call(pending, latestWidth));
      }
      return None;
    }
  }

  // ---- all interleavings ----

  datatype System = System(view: View, calls: seq<Call>, jobs: seq<Job>)

  datatype Event = SetTextEv(s: string) | LayoutEv(avail: real) | StartEv(call: nat) | FinishEv(job: nat)

  function Init(): System {
    System(View(0, false, "", 0.0, Nothing), [], [])
  }

  function With<T>(s: seq<T>, o: Option<T>): seq<T> { if o.Some? then s + [o.value] else s }

  function Without<T>(s: seq<T>, i: nat): seq<T>
    requires i < |s|
  {
    s[..i] + s[i + 1..]
  }

  predicate Can(s: System, ev: Event) {
    (ev.StartEv? ==> ev.call < |s.calls|) && (ev.FinishEv? ==> ev.job < |s.jobs|)
  }

  function Step(s: System, ev: Event): System
    requires Can(s, ev)
  {
    match ev
    case SetTextEv(t) => var (v, c) := SetTextSpec(s.view, t); s.(view := v, calls := With(s.calls, c))
    case LayoutEv(w) => var (v, c) := Layout(s.view, w); s.(view := v, calls := With(s.calls, c))
    case StartEv(i) => var (v, j) := Start(s.view, s.calls[i]); System(v, Without(s.calls, i), s.jobs + [j])
    case FinishEv(i) => var (v, c) := Finish(s.view, s.jobs[i]); System(v, With(s.calls, c), Without(s.jobs, i))
  }

  ghost predicate JobsOk(s: System) {
    && (forall i :: 0 <= i < |s.jobs| ==> 0 < s.jobs[i].gen <= s.view.gen)
    && (forall i, j :: 0 <= i < j < |s.jobs| ==> s.jobs[i].gen != s.jobs[j].gen)
  }

  predicate Newest(s: System, i: nat) {
    i < |s.jobs| && s.jobs[i].gen == s.view.gen
  }

  /** The view is busy exactly while a parse of the newest generation is in flight. */
  ghost predicate BusyIsNewest(s: System) {
    s.view.processing <==> exists i: nat :: Newest(s, i)
  }

  /** What is shown is older than the parse in flight. */
  ghost predicate ShownOk(s: System) {
    s.view.lines.Parsed? ==> s.view.lines.gen <= s.view.gen && (s.view.processing ==> s.view.lines.gen < s.view.gen)
  }

  /** When nothing is going on, the latest text is shown. */
  ghost predicate UpToDate(s: System) {
    !s.view.processing && s.calls == [] && s.view.width >= 1.0 && s.view.pendingText != "" ==>
      s.view.lines.Parsed? && s.view.lines.text == s.view.pendingText
  }

  ghost predicate Inv(s: System) {
    && JobsOk(s) && BusyIsNewest(s) && ShownOk(s) && UpToDate(s)
    && (s.view.width == 0.0 || s.view.width >= 1.0)
  }

  lemma StepKeeps(s: System, ev: Event)
    requires Inv(s) && Can(s, ev)
    ensures Inv(Step(s, ev))
    ensures Step(s, ev).view.lines != s.view.lines ==>
      && ev.FinishEv? && Newest(s, ev.job) && Step(s, ev).view.lines.Parsed? && Step(s, ev).view.lines.gen == s.view.gen
      && (s.view.lines.Parsed? ==> s.view.lines.gen < s.view.gen)
  {
    var n := Step(s, ev);
    match ev
    case SetTextEv(t) => SameJobs(s, n);
    case LayoutEv(w) => SameJobs(s, n);
    case StartEv(i) => assert Newest(n, |s.jobs|);
    case FinishEv(i) =>
      FinishJobs(s, i);
      if s.jobs[i].gen == s.view.gen { assert Newest(s, i); }
  }

  lemma SameJobs(s: System, n: System)
    requires Inv(s) && n.jobs == s.jobs && n.view.gen == s.view.gen && n.view.processing == s.view.processing
    ensures JobsOk(n) && BusyIsNewest(n)
  {
    assert forall i: nat :: Newest(n, i) == Newest(s, i);
  }

  lemma FinishJobs(s: System, i: nat)
    requires Inv(s) && i < |s.jobs|
    ensures JobsOk(Step(s, FinishEv(i))) && BusyIsNewest(Step(s, FinishEv(i)))
  {
    var n := Step(s, FinishEv(i));
    assert forall k :: 0 <= k < |n.jobs| ==> n.jobs[k] == s.jobs[if k < i then k else k + 1];
    if s.jobs[i].gen == s.view.gen {
      assert forall k: nat :: k < |n.jobs| ==> n.jobs[k].gen != s.view.gen;
    } else if s.view.processing {
      var k: nat :| Newest(s, k);
      assert Newest(n, if k < i then k else k - 1);
    } else {
      forall k: nat | k < |n.jobs| ensures !Newest(n, k) {
        assert !Newest(s, if k < i then k else k + 1);
      }
    }
  }

  // ---- runs ----

  ghost predicate Legal(s: System, es: seq<Event>)
    decreases |es|
  {
    es == [] || (Can(s, es[0]) && Legal(Step(s, es[0]), es[1..]))
  }

  ghost function Run(s: System, es: seq<Event>): System
    requires Legal(s, es)
    decreases |es|
  {
    if es == [] then s else Run(Step(s, es[0]), es[1..])
  }

  lemma {:induction false} RunKeeps(s: System, es: seq<Event>)
    requires Inv(s) && Legal(s, es)
    ensures Inv(Run(s, es))
    decreases |es|
  {
    if es != [] {
      StepKeeps(s, es[0]);
      RunKeeps(Step(s, es[0]), es[1..]);
    }
  }

  /** In every reachable state a busy view has a parse of the newest generation in flight, and an idle view
      with a known width shows the latest text unless that is empty. */
  lemma NoStaleParse(es: seq<Event>)
    requires Legal(Init(), es)
    ensures var s := Run(Init(), es);
      && (s.view.processing <==> exists i: nat :: Newest(s, i))
      && (!s.view.processing && s.calls == [] && s.view.width >= 1.0 && s.view.pendingText != "" ==>
          s.view.lines.Parsed? && s.view.lines.text == s.view.pendingText)
  {
    RunKeeps(Init(), es);
  }

  /** The generations shown only go up: a stale parse never replaces a newer one. */
  lemma {:induction false} ShownGrows(s: System, es: seq<Event>)
    requires Inv(s) && Legal(s, es) && s.view.lines.Parsed?
    ensures var n := Run(s, es);
      n.view.lines.Parsed? && (n.view.lines == s.view.lines || n.view.lines.gen > s.view.lines.gen)
    decreases |es|
  {
    if es != [] {
      StepKeeps(s, es[0]);
      ShownGrows(Step(s, es[0]), es[1..]);
    }
  }

  // ---- settling ----

  function CallWeight(c: Call, latest: string): nat { if c.text == latest then 2 else 4 }
  function JobWeight(j: Job, latest: string): nat { if j.text == latest then 1 else 3 }

  function CallsWeight(cs: seq<Call>, latest: string): nat {
    if cs == [] then 0 else CallWeight(cs[0], latest) + CallsWeight(cs[1..], latest)
  }

  function JobsWeight(js: seq<Job>, latest: string): nat {
    if js == [] then 0 else JobWeight(js[0], latest) + JobsWeight(js[1..], latest)
  }

  /** How many more steps the background work can take. */
  function Work(s: System): nat {
    CallsWeight(s.calls, s.view.pendingText) + JobsWeight(s.jobs, s.view.pendingText)
  }

  predicate Background(ev: Event) { ev.StartEv? || ev.FinishEv? }

  lemma {:induction false} CallsCut(cs: seq<Call>, i: nat, latest: string)
    requires i < |cs|
    ensures CallsWeight(cs, latest) == CallsWeight(Without(cs, i), latest) + CallWeight(cs[i], latest)
  {
    if i > 0 {
      CallsCut(cs[1..], i - 1, latest);
      assert Without(cs, i)[1..] == Without(cs[1..], i - 1);
    } else {
      assert Without(cs, 0) == cs[1..];
    }
  }

  lemma {:induction false} JobsCut(js: seq<Job>, i: nat, latest: string)
    requires i < |js|
    ensures JobsWeight(js, latest) == JobsWeight(Without(js, i), latest) + JobWeight(js[i], latest)
  {
    if i > 0 {
      JobsCut(js[1..], i - 1, latest);
      assert Without(js, i)[1..] == Without(js[1..], i - 1);
    } else {
      assert Without(js, 0) == js[1..];
    }
  }

  lemma BackgroundShrinks(s: System, ev: Event)
    requires Can(s, ev) && Background(ev)
    ensures Work(Step(s, ev)) < Work(s)
  {
    var n, latest := Step(s, ev), s.view.pendingText;
    match ev
    case StartEv(i) =>
      CallsCut(s.calls, i, latest);
      JobsCut(n.jobs, |s.jobs|, latest);
      assert Without(n.jobs, |s.jobs|) == s.jobs;
    case FinishEv(i) =>
      JobsCut(s.jobs, i, latest);
      var c := Finish(s.view, s.jobs[i]).1;
      if c.Some? {
        CallsCut(n.calls, |s.calls|, latest);
        assert Without(n.calls, |s.calls|) == s.calls;
      }
  }

  /** Left alone, the view settles: background steps can be taken while any are left, at most Work of them, and
      then the latest text is shown. */
  lemma {:induction false} Settles(s: System, es: seq<Event>)
    requires Inv(s) && Legal(s, es) && forall i :: 0 <= i < |es| ==> Background(es[i])
    ensures |es| + Work(Run(s, es)) <= Work(s)
    ensures var n := Run(s, es);
      && (n.calls == [] && n.jobs == [] <==> forall ev :: Background(ev) ==> !Can(n, ev))
      && (n.calls == [] && n.jobs == [] && n.view.width >= 1.0 && n.view.pendingText != "" ==>
          n.view.lines.Parsed? && n.view.lines.text == n.view.pendingText)
    decreases |es|
  {
    if es == [] {
      assert s.calls != [] ==> Can(s, StartEv(0));
      assert s.jobs != [] ==> Can(s, FinishEv(0));
    } else {
      StepKeeps(s, es[0]);
      BackgroundShrinks(s, es[0]);
      Settles(Step(s, es[0]), es[1..]);
    }
  }

  // ---- an empty text ----

  function Result(j: Job): Shown { Parsed(j.text, j.width, j.gen) }

  /** What will be on display if no further parse starts: the newest one in flight, else what is there already. */
  ghost predicate Coming(s: System, x: Shown) {
    if s.view.processing then exists i: nat :: Newest(s, i) && Result(s.jobs[i]) == x else s.view.lines == x
  }

  /** What the parse that starts last in a run will show, or `x` when none starts. */
  ghost function LastStarted(s: System, es: seq<Event>, x: Shown): Shown
    requires Legal(s, es)
    decreases |es|
  {
    if es == [] then x
    else
      LastStarted(Step(s, es[0]), es[1..],
        if es[0].StartEv? then Result(Start(s.view, s.calls[es[0].call]).1) else x)
  }

  lemma ComingStep(s: System, ev: Event, x: Shown)
    requires Inv(s) && Can(s, ev) && Background(ev) && s.view.pendingText == "" && Coming(s, x)
    ensures var n := Step(s, ev);
      && n.view.pendingText == ""
      && n.calls == (if ev.StartEv? then Without(s.calls, ev.call) else s.calls)
      && Coming(n, if ev.StartEv? then Result(Start(s.view, s.calls[ev.call]).1) else x)
  {
    var n := Step(s, ev);
    if ev.StartEv? {
      assert Newest(n, |s.jobs|);
    } else if s.view.processing {
      var i: nat :| Newest(s, i) && Result(s.jobs[i]) == x;
      if ev.job != i {
        assert s.jobs[ev.job].gen != s.jobs[i].gen;
        assert Newest(n, if i < ev.job then i else i - 1);
      }
    } else {
      assert !Newest(s, ev.job);
    }
  }

  /** With an empty text pending, the background work starts no parse of its own accord, and what is on display
      at the end comes from the parse that started last. */
  lemma {:induction false} EmptyPendingShowsLast(s: System, es: seq<Event>, x: Shown)
    requires Inv(s) && Legal(s, es) && (forall i :: 0 <= i < |es| ==> Background(es[i]))
    requires s.view.pendingText == "" && Coming(s, x) && Run(s, es).calls == [] && Run(s, es).jobs == []
    ensures Run(s, es).view.lines == LastStarted(s, es, x)
    ensures s.calls == [] ==> LastStarted(s, es, x) == x
    ensures s.calls != [] && (forall i :: 0 <= i < |s.calls| ==> s.calls[i].text == "") ==>
      LastStarted(s, es, x).Parsed? && LastStarted(s, es, x).text == ""
    decreases |es|
  {
    if es == [] {
      assert forall i: nat :: !Newest(s, i);
    } else {
      var ev, n := es[0], Step(s, es[0]);
      StepKeeps(s, ev);
      ComingStep(s, ev, x);
      EmptyPendingShowsLast(n, es[1..], if ev.StartEv? then Result(Start(s.view, s.calls[ev.call]).1) else x);
    }
  }

  /** The newest parse in flight is one of an empty text. */
  ghost predicate NewestIsEmpty(s: System) {
    exists i: nat :: Newest(s, i) && s.jobs[i].text == ""
  }

  /** SetText of an empty text clears the view if and only if no parse was under way, or the newest one under way
      was of an empty text itself: in whatever order the background work then finishes. */
  lemma EmptyTextShownIff(s: System, es: seq<Event>)
    requires Inv(s) && s.view.width >= 1.0 && s.calls == []
    requires Legal(Step(s, SetTextEv("")), es) && forall i :: 0 <= i < |es| ==> Background(es[i])
    requires Run(Step(s, SetTextEv("")), es).calls == [] && Run(Step(s, SetTextEv("")), es).jobs == []
    ensures var shown := Run(Step(s, SetTextEv("")), es).view.lines;
      shown.Parsed? && (shown.text == "" <==> !s.view.processing || NewestIsEmpty(s))
  {
    var n := Step(s, SetTextEv(""));
    StepKeeps(s, SetTextEv(""));
    if s.view.processing {
      var i: nat :| Newest(s, i);
      assert Newest(n, i);
      EmptyPendingShowsLast(n, es, Result(s.jobs[i]));
      assert forall j: nat :: Newest(s, j) ==> j == i;
    } else {
      assert n.calls == [Call("", s.view.width)];
      EmptyPendingShowsLast(n, es, n.view.lines);
    }
  }

  /** An empty text set during a parse does not clear the view: the parse is published and nothing follows. */
  lemma EmptyTextIsNotShown(text: string, width: real)
    requires text != "" && width >= 1.0
    ensures var es := [LayoutEv(width), SetTextEv(text), StartEv(0), SetTextEv(""), FinishEv(0)];
      Legal(Init(), es) && Run(Init(), es) == System(View(1, false, "", width, Parsed(text, width, 1)), [], [])
  {
    var s1 := Step(Init(), LayoutEv(width));
    var s2 := Step(s1, SetTextEv(text));
    var s3 := Step(s2, StartEv(0));
    var s4 := Step(s3, SetTextEv(""));
    var s5 := Step(s4, FinishEv(0));
    FiveSteps(Init(), [LayoutEv(width), SetTextEv(text), StartEv(0), SetTextEv(""), FinishEv(0)], s1, s2, s3, s4, s5);
  }

  lemma FiveSteps(s: System, es: seq<Event>, s1: System, s2: System, s3: System, s4: System, s5: System)
    requires |es| == 5 && Can(s, es[0]) && s1 == Step(s, es[0]) && Can(s1, es[1]) && s2 == Step(s1, es[1])
    requires Can(s2, es[2]) && s3 == Step(s2, es[2]) && Can(s3, es[3]) && s4 == Step(s3, es[3])
    requires Can(s4, es[4]) && s5 == Step(s4, es[4])
    ensures Legal(s, es) && Run(s, es) == s5
  {
    hide Step, Can;
    assert es[1..][1..] == es[2..] && es[2..][1..] == es[3..] && es[3..][1..] == es[4..] && es[4..][1..] == [];
    assert Legal(s5, []) && Run(s5, []) == s5;
    assert Legal(s4, es[4..]) && Run(s4, es[4..]) == s5;
    assert Legal(s3, es[3..]) && Run(s3, es[3..]) == s5;
    assert Legal(s2, es[2..]) && Run(s2, es[2..]) == s5;
    assert Legal(s1, es[1..]) && Run(s1, es[1..]) == s5;
  }
}

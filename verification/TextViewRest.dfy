/** What the view shows once it has come to rest: the text and the width of the last event that called for a parse. */
module TextViewRest {
  import opened TextView

  /** Whatever is decided on is for the text and the width of that moment, and a start or a layout without a text
      decides on nothing. */
  lemma CallsAreLatest(s: System, ev: Event)
    requires Can(s, ev)
    ensures var n := Step(s, ev);
      if ev.StartEv? then |n.calls| == |s.calls| - 1
      else n.calls == s.calls || n.calls == s.calls + [Call(n.view.pendingText, n.view.width)]
    ensures ev.LayoutEv? && s.view.pendingText == "" ==> Step(s, ev).calls == s.calls
  {
  }

  /** A layout leads to a parse if and only if there is a text and the width is the first one or more than four off. */
  lemma ResizeParsesIff(s: System, avail: real)
    requires avail >= 1.0
    ensures var n := Step(s, LayoutEv(avail));
      && n.view.width == avail && n.view.pendingText == s.view.pendingText && n.jobs == s.jobs
      && (n.calls != s.calls <==>
            && s.view.pendingText != ""
            && (s.view.width < 1.0 || s.view.width - avail > 4.0 || avail - s.view.width > 4.0))
  {
    var n := Step(s, LayoutEv(avail));
    assert |n.calls| != |s.calls| ==> n.calls != s.calls;
  }

  ghost predicate Shows(x: Shown, t: string, w: real) { x.Parsed? && x.text == t && x.width == w }

  /** The latest text and width have been called for, or are being parsed, or are on display. */
  ghost predicate OnItsWay(s: System, t: string, w: real) {
    && s.view.pendingText == t && s.view.width == w
    && (forall i :: 0 <= i < |s.calls| ==> s.calls[i] == Call(t, w))
    && (s.calls != []
        || if s.view.processing then exists i: nat :: Newest(s, i) && s.jobs[i].text == t && s.jobs[i].width == w
           else Shows(s.view.lines, t, w))
  }

  lemma OnItsWayStep(s: System, ev: Event, t: string, w: real)
    requires Inv(s) && Can(s, ev) && Background(ev) && OnItsWay(s, t, w)
    ensures OnItsWay(Step(s, ev), t, w)
  {
    var n := Step(s, ev);
    if ev.StartEv? {
      assert Newest(n, |s.jobs|);
    } else if s.calls == [] {
      if s.view.processing {
        var i: nat :| Newest(s, i) && s.jobs[i].text == t && s.jobs[i].width == w;
        if ev.job != i {
          assert s.jobs[ev.job].gen != s.jobs[i].gen;
          assert Newest(n, if i < ev.job then i else i - 1);
        }
      } else {
        assert !Newest(s, ev.job);
      }
    }
  }

  lemma {:induction false} OnItsWayArrives(s: System, es: seq<Event>, t: string, w: real)
    requires Inv(s) && Legal(s, es) && (forall i :: 0 <= i < |es| ==> Background(es[i])) && OnItsWay(s, t, w)
    requires Run(s, es).calls == [] && Run(s, es).jobs == []
    ensures Shows(Run(s, es).view.lines, t, w)
    decreases |es|
  {
    if es == [] {
      assert forall i: nat :: !Newest(s, i);
    } else {
      StepKeeps(s, es[0]);
      OnItsWayStep(s, es[0], t, w);
      OnItsWayArrives(Step(s, es[0]), es[1..], t, w);
    }
  }

  /** A text set in an idle view with a known width is shown at that width, and one resized far enough at the new
      width, in whatever order the background work finishes. */
  lemma SetTextArrives(s: System, t: string, es: seq<Event>)
    requires Inv(s) && s.calls == [] && !s.view.processing && s.view.width >= 1.0
    requires Legal(Step(s, SetTextEv(t)), es) && forall i :: 0 <= i < |es| ==> Background(es[i])
    requires Run(Step(s, SetTextEv(t)), es).calls == [] && Run(Step(s, SetTextEv(t)), es).jobs == []
    ensures Shows(Run(Step(s, SetTextEv(t)), es).view.lines, t, s.view.width)
  {
    StepKeeps(s, SetTextEv(t));
    assert Step(s, SetTextEv(t)).calls == [Call(t, s.view.width)];
    OnItsWayArrives(Step(s, SetTextEv(t)), es, t, s.view.width);
  }

  lemma ResizeArrives(s: System, avail: real, es: seq<Event>)
    requires Inv(s) && s.calls == [] && s.view.pendingText != "" && avail >= 1.0
    requires s.view.width < 1.0 || s.view.width - avail > 4.0 || avail - s.view.width > 4.0
    requires Legal(Step(s, LayoutEv(avail)), es) && forall i :: 0 <= i < |es| ==> Background(es[i])
    requires Run(Step(s, LayoutEv(avail)), es).calls == [] && Run(Step(s, LayoutEv(avail)), es).jobs == []
    ensures Shows(Run(Step(s, LayoutEv(avail)), es).view.lines, s.view.pendingText, avail)
  {
    StepKeeps(s, LayoutEv(avail));
    assert Step(s, LayoutEv(avail)).calls == [Call(s.view.pendingText, avail)];
    OnItsWayArrives(Step(s, LayoutEv(avail)), es, s.view.pendingText, avail);
  }
}

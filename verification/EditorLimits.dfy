/** Where the editor's bounds guarantee ends: the exact condition, for every event and for whole runs, and for
    each way out a run that takes it. */
module EditorLimits {
  import opened Strings
  import opened EditorText
  import opened EditorSpec
  import opened EditorRuns
  import L = EditorLines

  // ---- typing a line break as a rune ----

  lemma NormaliseOneCr(a: string, b: string)
    requires '\r' !in a && '\r' !in b
    ensures Normalise(a + "\r" + b) == if b != "" && b[0] == '\n' then a + b else a + "\n" + b
  {
    var s := a + "\r" + b;
    if b != "" && b[0] == '\n' {
      var rest := b[1..];
      assert s == a + CRLF + rest;
      forall i: nat | i < |a| ensures !At(s, CRLF, i) {
        assert s[i] == a[i];
        assert i + 2 <= |s| ==> s[i..i + 2][0] == s[i];
      }
      assert s[|a|..|a| + 2] == CRLF;
      FindIs(s, CRLF, |a|);
      assert s[|a| + 2..] == rest && s[..|a|] == a;
      NoCrlf(rest);
      assert Split(s, CRLF) == [a] + Split(rest, CRLF) == [a, rest];
      assert Join([a, rest], LF) == a + b;
      NoReplace(a + b);
    } else {
      forall i: nat ensures !At(s, CRLF, i) {
        if i + 2 <= |s| {
          assert s[i..i + 2][0] == s[i] && s[i..i + 2][1] == s[i + 1];
        }
      }
      FindNone(s, CRLF);
      assert Join([a, b], "\r") == s;
      SplitJoin([a, b], "\r");
      assert Join([a, b], LF) == a + "\n" + b;
    }
  }

  lemma NoReplace(s: string)
    requires '\r' !in s
    ensures ReplaceAll(s, "\r", LF) == s
  {
    forall i: nat ensures !At(s, "\r", i) {
      if i + 1 <= |s| { assert s[i..i + 1][0] == s[i]; }
    }
    FindNone(s, "\r");
  }

  /** After a line break put in at `p`, the line of `p` ends at its column. */
  lemma BreakEndsLine(l: seq<string>, p: Pos)
    requires PlainLines(l) && InBounds(l, p)
    ensures Offset(l, p) <= |Unlines(l)|
    ensures !InText(Splice(Unlines(l), Offset(l, p), Offset(l, p), "\n"), Pos(p.line, p.col + 1))
  {
    var m := ["", ""];
    TwoLines("", "");
    assert Unlines(m) == "" + "\n" + "" == "\n";
    SpliceIsSplice(l, p, p, m);
    UnlinesPlain(LineSplice(l, p, p, m));
    var cut := LineSplice(l, p, p, m);
    assert Lines(Splice(Unlines(l), Offset(l, p), Offset(l, p), "\n")) == cut;
    assert cut[p.line] == l[p.line][..p.col] + "";
  }

  lemma PlainRuneAdvances(l: seq<string>, p: Pos, r: char)
    requires PlainLines(l) && InBounds(l, p) && r != '\n' && r != '\r'
    ensures Offset(l, p) <= |Unlines(l)|
    ensures InText(Splice(Unlines(l), Offset(l, p), Offset(l, p), [r]), Pos(p.line, p.col + 1))
  {
    CutText(l, p);
    SpliceIsSplice(l, p, p, [[r]]);
    UnlinesPlain(LineSplice(l, p, p, [[r]]));
    PosOfInText(Unlines(LineSplice(l, p, p, [[r]])), Offset(l, p) + 1);
  }

  /** TypedRune advances the column by one whatever the rune is: the new cursor lies in the text it leaves
      exactly when the rune is not a line break. */
  lemma TypedRuneInBoundsIff(text: string, p: Pos, r: char)
    requires '\r' !in text && InText(text, p)
    ensures var off := OffsetOf(text, p);
      off <= |text| && (InText(Normalise(Splice(text, off, off, [r])), Pos(p.line, p.col + 1)) <==>
        r != '\n' && r != '\r')
  {
    hide Normalise, Split, Join, Before, After;
    var l, off := Lines(text), OffsetOf(text, p);
    LinesPlain(text);
    CutText(l, p);
    var raw := Splice(text, off, off, [r]);
    BreakEndsLine(l, p);
    if r != '\r' {
      NormalisePlain(raw);
      if r != '\n' {
        PlainRuneAdvances(l, p, r);
      }
    } else {
      var a, b := text[..off], text[off..];
      NormaliseOneCr(a, b);
      assert raw == a + "\r" + b && a + b == text && a + "\n" + b == Splice(text, off, off, "\n");
      if p.col < |l[p.line]| {
        NoBreakBeforeLineEnd(l, p);
      }
    }
  }

  /** The same for TypedRune on a whole view: with a selection, the rune replaces it. */
  lemma TypedOverInBoundsIff(v: View, r: char)
    requires Bounds(v)
    ensures InText(Normalise(Replaced(v, [r])), EndOfInsert(L.EditFrom(v), [[r]])) <==> r != '\n' && r != '\r'
  {
    hide Normalise, Split, Join, Before, After;
    var l, s, e := Lines(v.text), L.EditFrom(v), L.EditTo(v);
    FromTo(v);
    LinesPlain(v.text);
    OffsetMonotone(l, s, e);
    var a, cut := From(v), Splice(v.text, From(v), To(v), "");
    CutAtStart(l, s, e);
    assert Splice(cut, a, a, [r]) == Replaced(v, [r]);
    TypedRuneInBoundsIff(cut, s, r);
  }

  /** The start of what is removed keeps its place. */
  lemma CutAtStart(l: seq<string>, s: Pos, e: Pos)
    requires PlainLines(l) && InBounds(l, s) && InBounds(l, e) && Offset(l, s) <= Offset(l, e) <= |Unlines(l)|
    ensures var cut := Splice(Unlines(l), Offset(l, s), Offset(l, e), "");
      '\r' !in cut && InText(cut, s) && OffsetOf(cut, s) == Offset(l, s)
  {
    assert Unlines([""]) == "";
    SpliceIsSplice(l, s, e, [""]);
    UnlinesPlain(LineSplice(l, s, e, [""]));
    KeptBefore(l, s, e, [""], s);
  }

  lemma NoBreakBeforeLineEnd(l: seq<string>, p: Pos)
    requires PlainLines(l) && InBounds(l, p) && p.col < |l[p.line]|
    ensures Unlines(After(l, p)) != "" && Unlines(After(l, p))[0] != '\n'
  {
    var after := After(l, p);
    assert Unlines(after)[0] == after[0][0] && after[0][0] in l[p.line];
  }

  // ---- whole runs ----

  /** The events of a run bring along what they have to, as long as the editor is within bounds. */
  ghost predicate Possible(v: View, es: seq<Event>)
    decreases |es|
  {
    es == [] || (Bounds(v) ==> Ok(v, es[0]) && Possible(Step(v, es[0]), es[1..]))
  }

  /** The editor is within bounds before and after every event of a run. */
  ghost predicate StaysIn(v: View, es: seq<Event>)
    decreases |es|
  {
    Bounds(v) && (es == [] || (Ok(v, es[0]) && StaysIn(Step(v, es[0]), es[1..])))
  }

  /** Whenever an event of a run selects from the anchor, the anchor is in the text. */
  ghost predicate Anchored(v: View, es: seq<Event>)
    requires Bounds(v) && Possible(v, es)
    decreases |es|
  {
    es == [] ||
    (&& (UsesAnchor(v, es[0]) ==> InText(v.text, v.anchor))
     && (StepInBoundsIff(v, es[0]); Anchored(Step(v, es[0]), es[1..])))
  }

  /** A run stays within bounds if and only if every event that selects from the anchor finds it in the text. */
  lemma {:induction false} RunInBoundsIff(v: View, es: seq<Event>)
    requires Bounds(v) && Possible(v, es)
    ensures StaysIn(v, es) <==> Anchored(v, es)
    decreases |es|
  {
    hide Step, Bounds, Ok, UsesAnchor;
    if es != [] {
      StepInBoundsIff(v, es[0]);
      if UsesAnchor(v, es[0]) ==> InText(v.text, v.anchor) {
        RunInBoundsIff(Step(v, es[0]), es[1..]);
      }
    }
  }

  /** Events that leave the text as it is. */
  predicate KeepsText(ev: Event) {
    match ev
    case Rune(_) | Backspace | Delete | Return | Tab | Cut | Paste(_) | Undo | SetText(_) => false
    case _ => true
  }

  lemma QuietStep(v: View, ev: Event)
    requires Bounds(v) && Ok(v, ev) && KeepsText(ev) && InText(v.text, v.anchor)
    ensures var n := Step(v, ev); Bounds(n) && n.text == v.text && InText(n.text, n.anchor)
  {
    hide Bounds, Lines, PosOf, OffsetOf, ShiftOk;
    StepInBoundsIff(v, ev);
    StepAnchor(v, ev);
  }

  lemma StepAnchor(v: View, ev: Event)
    requires Bounds(v) && Ok(v, ev) && KeepsText(ev)
    ensures var n := Step(v, ev);
      && n.text == v.text
      && (n.anchor == v.anchor || InText(v.text, n.anchor))
  {
    hide PosOf, OffsetOf;
    LinesPlain(v.text);
  }

  /** While nothing changes the text, an anchor in it keeps any run within bounds. */
  lemma {:induction false} QuietStaysIn(v: View, es: seq<Event>)
    requires Bounds(v) && InText(v.text, v.anchor) && Possible(v, es)
    requires forall i :: 0 <= i < |es| ==> KeepsText(es[i])
    ensures StaysIn(v, es)
    decreases |es|
  {
    hide Step, Bounds, Ok;
    if es != [] {
      QuietStep(v, es[0]);
      QuietStaysIn(Step(v, es[0]), es[1..]);
    }
  }

  /** After focus is lost in a drag with a shift selection, only an edit can lead out of the bounds: as long as
      the text stays, so do they. Once it has changed, RunInBoundsIff says which event leaves them. */
  lemma AfterFocusLost(v: View, es: seq<Event>)
    requires Inv(v) && v.dragging && v.shiftSel && Possible(Step(v, FocusLost), es)
    requires forall i :: 0 <= i < |es| ==> KeepsText(es[i])
    ensures StaysIn(Step(v, FocusLost), es)
  {
    FocusLostKeepsIff(v);
    assert Step(v, FocusLost).anchor == v.anchor && Step(v, FocusLost).text == v.text;
    QuietStaysIn(Step(v, FocusLost), es);
  }

  // ---- dragging from an anchor an edit has removed ----

  lemma OneLine(s: string, p: nat)
    requires '\r' !in s && '\n' !in s && p <= |s|
    ensures Lines(s) == [s] && InText(s, Pos(0, p)) && OffsetOf(s, Pos(0, p)) == p && PosOf(s, p) == Pos(0, p)
  {
    assert Unlines([s]) == s;
    UnlinesPlain([s]);
    CutText([s], Pos(0, p));
    assert Before([s], Pos(0, p)) == [s[..p]];
  }

  /** A view of a one-line or two-line text with nothing selected. */
  function Plainly(text: string, cursor: Pos, anchor: Pos, shift: bool, undo: seq<Snap>): View {
    View(text, cursor, anchor, cursor, false, shift, shift, false, undo)
  }

  lemma PressedAndErased()
    ensures var p := Plainly("a", Pos(0, 1), Pos(0, 1), false, []);
      var b := Plainly("", Pos(0, 0), Pos(0, 1), false, [Snap("a", Pos(0, 1))]).(sel := Pos(0, 1));
      Inv(p) && Step(p, Backspace) == b && Inv(b)
  {
    OneLine("a", 1);
    OneLine("", 0);
    var p := Plainly("a", Pos(0, 1), Pos(0, 1), false, []);
    assert Inv(p);
    assert From(p) == 1;
    assert Splice("a", 0, 1, "") == "";
  }

  lemma PressedAtEnd()
    ensures Inv(Start("a")) && Ok(Start("a"), Press(Pos(0, 1)))
    ensures Step(Start("a"), Press(Pos(0, 1))) == Plainly("a", Pos(0, 1), Pos(0, 1), false, [])
  {
    StartInv("a");
    NormalisePlain("a");
    OneLine("a", 1);
  }

  /** Press at the end of the line, delete a character, drag: the selection starts outside the text. */
  lemma DragAfterEditLeavesText() returns (p: View, n: View)
    ensures Inv(Start("a")) && Ok(Start("a"), Press(Pos(0, 1))) && p == Step(Start("a"), Press(Pos(0, 1)))
    ensures Inv(p) && Inv(Step(p, Backspace)) && Ok(Step(p, Backspace), DragTo(Pos(0, 0)))
    ensures n == Step(Step(p, Backspace), DragTo(Pos(0, 0)))
    ensures n.hasSel && !InText(n.text, n.anchor)
  {
    PressedAtEnd();
    PressedAndErased();
    OneLine("", 0);
    p := Plainly("a", Pos(0, 1), Pos(0, 1), false, []);
    n := Step(Step(p, Backspace), DragTo(Pos(0, 0)));
  }

  // ---- losing focus in the middle of a drag with a shift selection ----

  /** The dragged view with a shift selection that came back to its anchor, and what FocusLost and Left make of it. */
  lemma FocusLostAndLeft()
    ensures var v := View("a", Pos(0, 1), Pos(0, 1), Pos(0, 1), false, true, true, true, []);
      var w := v.(shiftHeld := false);
      Inv(v) && Ok(v, FocusLost) && Step(v, FocusLost) == w && Bounds(w) && Step(w, Left) == w.(cursor := Pos(0, 0))
  {
    OneLine("a", 0);
    OneLine("a", 1);
  }

  /** One line "a", with the cursor at its end or start. */
  function OnA(col: nat, anchor: nat, sel: nat, hasSel: bool, shiftSel: bool, shiftHeld: bool): View {
    View("a", Pos(0, col), Pos(0, anchor), Pos(0, sel), hasSel, shiftSel, shiftHeld, true, [])
  }

  lemma StepsOnA()
    ensures Bounds(OnA(1, 1, 1, false, false, true)) && Bounds(OnA(0, 1, 0, true, true, true))
    ensures Step(OnA(1, 1, 1, false, false, true), Left) == OnA(0, 1, 0, true, true, true)
    ensures Step(OnA(0, 1, 0, true, true, true), Right) == OnA(1, 1, 1, false, true, true)
  {
    OneLine("a", 0);
    OneLine("a", 1);
    hide InText, OffsetOf, PosOf;
  }

  /** One more event in front of a run. */
  lemma Prepend(v: View, armed: bool, ev: Event, es: seq<Event>)
    requires Inv(v) && ArmedOk(v, armed) && Ok(v, ev) && (ev.DragTo? ==> armed) && !ev.FocusLost?
    ensures Orderly(v, ev) && Inv(Step(v, ev)) && ArmedOk(Step(v, ev), Armed(armed, ev))
    ensures Legal(Step(v, ev), Armed(armed, ev), es) ==>
      Legal(v, armed, [ev] + es) && Run(v, armed, [ev] + es) == Run(Step(v, ev), Armed(armed, ev), es)
  {
    hide Step, Inv, Bounds, Ok;
    StepArmed(v, armed, ev);
    assert ([ev] + es)[1..] == es;
  }

  lemma PressAndDrag()
    ensures var v := Plainly("a", Pos(0, 1), Pos(0, 1), false, []);
      && Inv(v) && Ok(v, DragTo(Pos(0, 1))) && Step(v, DragTo(Pos(0, 1))) == OnA(1, 1, 1, false, false, false)
    ensures var w := OnA(1, 1, 1, false, false, false); Inv(w) && Step(w, ShiftDown) == OnA(1, 1, 1, false, false, true)
  {
    hide Lines, Offset;
    OneLine("a", 1);
  }

  /** The view FocusLostInDragLeavesText starts from comes about by pressing at the end of the line, dragging
      without moving, then shift-Left and shift-Right. */
  lemma DraggedWithShift()
    ensures var es := [Press(Pos(0, 1))] + ([DragTo(Pos(0, 1))] + ([ShiftDown] + ([Left] + ([Right] + []))));
      && Inv(Start("a")) && ArmedOk(Start("a"), true) && Legal(Start("a"), true, es)
      && Run(Start("a"), true, es) == OnA(1, 1, 1, false, true, true)
  {
    hide Step, Bounds, Ok, Inv, ArmedOk, Legal, Run, OnA, Plainly, Start, Orderly, InText, Lines;
    StartInv("a");
    PressedAtEnd();
    PressAndDrag();
    StepsOnA();
    EmptyRun();
    var v3, v4 := OnA(1, 1, 1, false, false, true), OnA(0, 1, 0, true, true, true);
    Prepend(Start("a"), true, Press(Pos(0, 1)), [DragTo(Pos(0, 1))] + ([ShiftDown] + ([Left] + ([Right] + []))));
    Prepend(Plainly("a", Pos(0, 1), Pos(0, 1), false, []), true, DragTo(Pos(0, 1)),
      [ShiftDown] + ([Left] + ([Right] + [])));
    PlainOk();
    Prepend(OnA(1, 1, 1, false, false, false), true, ShiftDown, [Left] + ([Right] + []));
    Prepend(v3, true, Left, [Right] + []);
    Prepend(v4, true, Right, []);
  }

  lemma EmptyRun()
    ensures var v := OnA(1, 1, 1, false, true, true);
      Inv(v) && ArmedOk(v, true) && Legal(v, true, []) && Run(v, true, []) == v
  {
    OneLine("a", 1);
  }

  lemma PlainOk()
    ensures forall v: View {:trigger Ok(v, ShiftDown)} :: Ok(v, ShiftDown)
    ensures forall v: View {:trigger Ok(v, Left)} :: Ok(v, Left)
    ensures forall v: View {:trigger Ok(v, Right)} :: Ok(v, Right)
  {
  }

  lemma BreakAndAnchor()
    ensures "\na" == Unlines(["", "a"]) && Lines("\na") == ["", "a"]
    ensures InText("\na", Pos(1, 0)) && InText("\na", Pos(1, 1)) && !InText("\na", Pos(0, 1))
    ensures OffsetOf("\na", Pos(1, 0)) == 1 && PosOf("\na", 1) == Pos(1, 0) && PosOf("\na", 2) == Pos(1, 1)
  {
    TwoLines("", "a");
    var l := ["", "a"];
    UnlinesPlain(l);
    CutText(l, Pos(1, 0));
    CutText(l, Pos(1, 1));
    SecondLine("a", 0);
    SecondLine("a", 1);
  }

  lemma SecondLine(s: string, col: nat)
    requires col <= |s|
    ensures Offset(["", s], Pos(1, col)) == 1 + col
  {
    assert Before(["", s], Pos(1, col)) == ["", s[..col]];
    TwoLines("", s[..col]);
  }

  lemma BreakPasted(x: View)
    requires x.text == "a" && x.cursor == Pos(0, 0) && !x.hasSel && Bounds(x)
    ensures var p := Step(x, Paste("\n"));
      p == x.(text := "\na", cursor := Pos(1, 0), undo := p.undo) && Bounds(p)
  {
    OneLine("a", 0);
    NormalisePlain("\n");
    BreakAndAnchor();
    assert Splice("a", 0, 0, "\n") == "\na";
    FromTo(x);
    PushOk(x.undo, Snap("a", Pos(0, 0)));
    assert Step(x, Paste("\n")) == Edit(x, 0, 0, "\n");
  }

  lemma ShiftRight(p: View)
    requires p.text == "\na" && p.cursor == Pos(1, 0) && p.shiftSel && Bounds(p)
    ensures Bounds(Step(p, ShiftDown))
    ensures Step(Step(p, ShiftDown), Right) == Extend(p.(shiftHeld := true), Pos(1, 1))
  {
    hide OffsetOf, PosOf, InText, Lines, Normalise;
    BreakAndAnchor();
    var q := Step(p, ShiftDown);
    assert q == p.(shiftHeld := true);
    assert CharRight(q) == Pos(1, 1);
  }

  /** During a drag, shift-Left and shift-Right start and empty a shift selection; focus is lost, which keeps
      shiftSelecting because of the drag. After Left and a pasted line break the old anchor is outside the
      text, and the next shift move selects from it. */
  lemma FocusLostInDragLeavesText() returns (v: View, x: View, n: View)
    ensures v == OnA(1, 1, 1, false, true, true) && Inv(v) && v.dragging && v.shiftSel && Ok(v, FocusLost)
    ensures Bounds(Step(v, FocusLost)) && x == Step(Step(v, FocusLost), Left) && Bounds(x)
    ensures Bounds(Step(x, Paste("\n"))) && Bounds(Step(Step(x, Paste("\n")), ShiftDown))
    ensures n == Step(Step(Step(x, Paste("\n")), ShiftDown), Right)
    ensures n.hasSel && !InText(n.text, n.anchor)
  {
    OneLine("a", 0);
    FocusLostAndLeft();
    BreakAndAnchor();
    v := View("a", Pos(0, 1), Pos(0, 1), Pos(0, 1), false, true, true, true, []);
    x := Step(Step(v, FocusLost), Left);
    BreakPasted(x);
    var p := Step(x, Paste("\n"));
    ShiftRight(p);
    n := Extend(p.(shiftHeld := true), Pos(1, 1));
  }
}

/** The editor over whole runs: positions stay in bounds, undo walks back, cut and paste restore. */
module EditorRuns {
  import opened EditorText
  import opened EditorSpec
  import S = Strings

  // ---- runs ----

  /** Whether the anchor still is where a press, a word or select-all put it, no text having changed since. */
  predicate Armed(armed: bool, ev: Event) {
    match ev
    case Press(_) => true
    case SelectWord(_, _, _) => true
    case SelectAll => true
    case Rune(_) | Backspace | Delete | Return | Tab | Cut | Paste(_) | Undo | SetText(_) => false
    case _ => armed
  }

  ghost predicate ArmedOk(v: View, armed: bool) {
    armed ==> InText(v.text, v.anchor)
  }

  /** A sequence of events as the toolkit delivers them: a drag follows its press with no edit in between, and
      focus does not leave in the middle of a drag with a shift selection. */
  ghost predicate Legal(v: View, armed: bool, es: seq<Event>)
    requires Inv(v) && ArmedOk(v, armed)
    decreases |es|
  {
    es == [] ||
    (&& Ok(v, es[0]) && (es[0].DragTo? ==> armed) && (es[0].FocusLost? ==> !(v.dragging && v.shiftSel))
     && (StepArmed(v, armed, es[0]); Legal(Step(v, es[0]), Armed(armed, es[0]), es[1..])))
  }

  lemma StepArmed(v: View, armed: bool, ev: Event)
    requires Inv(v) && ArmedOk(v, armed) && Ok(v, ev) && Orderly(v, ev)
    ensures Inv(Step(v, ev)) && ArmedOk(Step(v, ev), Armed(armed, ev))
  {
    StepKeeps(v, ev);
    LinesPlain(v.text);
  }

  ghost function Run(v: View, armed: bool, es: seq<Event>): View
    requires Inv(v) && ArmedOk(v, armed) && Legal(v, armed, es)
    decreases |es|
  {
    if es == [] then v
    else
      StepArmed(v, armed, es[0]);
      Run(Step(v, es[0]), Armed(armed, es[0]), es[1..])
  }

  /** A freshly loaded editor. */
  function Start(raw: string): View {
    View(Normalise(raw), Pos(0, 0), Pos(0, 0), Pos(0, 0), false, false, false, false, [])
  }

  lemma StartInv(raw: string)
    ensures Inv(Start(raw)) && ArmedOk(Start(raw), true)
  {
    NormaliseNoCr(raw);
  }

  /** In every run the cursor, both ends of a selection and every remembered cursor stay inside the text. */
  lemma {:induction false} StaysInBounds(v: View, armed: bool, es: seq<Event>)
    requires Inv(v) && ArmedOk(v, armed) && Legal(v, armed, es)
    ensures Inv(Run(v, armed, es))
    ensures var n := Run(v, armed, es);
      && InText(n.text, n.cursor)
      && (n.hasSel ==> InText(n.text, n.anchor) && InText(n.text, n.sel) && From(n) <= To(n) <= |n.text|)
      && (forall i :: 0 <= i < |n.undo| ==> InText(n.undo[i].raw, n.undo[i].cursor))
    decreases |es|
  {
    if es == [] {
      FromTo(v);
    } else {
      StepArmed(v, armed, es[0]);
      StaysInBounds(Step(v, es[0]), Armed(armed, es[0]), es[1..]);
    }
  }

  // ---- undo ----

  /** Whether the event changes the text through an edit, and so remembers the state before it. */
  predicate Pushes(v: View, ev: Event)
    requires Bounds(v)
  {
    match ev
    case Rune(_) | Return | Tab => true
    case Backspace => v.hasSel || From(v) > 0
    case Delete => v.hasSel || To(v) < |v.text|
    case Cut => v.hasSel
    case Paste(clip) => clip != ""
    case _ => false
  }

  predicate Replaces(ev: Event) { ev.Undo? || ev.SetText? }

  /** An edit pushes the state before it; anything else but Undo and SetText leaves text and stack alone. */
  lemma PushOrKeep(v: View, ev: Event)
    requires Bounds(v) && Ok(v, ev) && !Replaces(ev)
    ensures var n := Step(v, ev);
      if Pushes(v, ev) then n.undo == Push(v.undo, Snap(v.text, v.cursor))
      else n.text == v.text && n.undo == v.undo
  {
    hide PosOf, OffsetOf, Lines, Splice, Normalise, Push, Indented;
    FromTo(v);
  }

  /** The states before each edit of a run, in order. */
  ghost function Log(v: View, armed: bool, es: seq<Event>): seq<Snap>
    requires Inv(v) && ArmedOk(v, armed) && Legal(v, armed, es)
    decreases |es|
  {
    if es == [] then []
    else
      StepArmed(v, armed, es[0]);
      (if Pushes(v, es[0]) then [Snap(v.text, v.cursor)] else [])
      + Log(Step(v, es[0]), Armed(armed, es[0]), es[1..])
  }

  predicate NoReplacing(es: seq<Event>) {
    forall i :: 0 <= i < |es| ==> !Replaces(es[i])
  }

  function Last(s: seq<Snap>, n: nat): seq<Snap> {
    if |s| <= n then s else s[|s| - n..]
  }

  lemma PushIsLast(u: seq<Snap>, s: Snap, rest: seq<Snap>)
    requires |u| <= UNDO_LIMIT
    ensures Last(Push(u, s) + rest, UNDO_LIMIT) == Last(u + ([s] + rest), UNDO_LIMIT)
  {
    assert u + ([s] + rest) == (u + [s]) + rest;
  }

  /** The undo stack is exactly the last hundred states. */
  lemma {:induction false} StackIsLastHundred(v: View, armed: bool, es: seq<Event>)
    requires Inv(v) && ArmedOk(v, armed) && Legal(v, armed, es) && NoReplacing(es)
    ensures Run(v, armed, es).undo == Last(v.undo + Log(v, armed, es), 100)
    ensures if Log(v, armed, es) == [] then Run(v, armed, es).text == v.text else Log(v, armed, es)[0].raw == v.text
    decreases |es|
  {
    if es == [] {
      assert v.undo + [] == v.undo;
    } else {
      var ev := es[0];
      StepArmed(v, armed, ev);
      PushOrKeep(v, ev);
      var n, a := Step(v, ev), Armed(armed, ev);
      StackIsLastHundred(n, a, es[1..]);
      if Pushes(v, ev) {
        PushIsLast(v.undo, Snap(v.text, v.cursor), Log(n, a, es[1..]));
      } else {
        assert [] + Log(n, a, es[1..]) == Log(n, a, es[1..]);
      }
    }
  }

  function UndoTimes(v: View, k: nat): View
    decreases k
  {
    if k == 0 then v else UndoTimes(Undone(v), k - 1)
  }

  lemma {:induction false} UndoWalksBack(v: View, k: nat)
    requires k <= |v.undo|
    ensures var n := UndoTimes(v, k);
      && n.undo == v.undo[..|v.undo| - k]
      && (k > 0 ==> n.text == v.undo[|v.undo| - k].raw && n.cursor == v.undo[|v.undo| - k].cursor && !n.hasSel)
    decreases k
  {
    if k > 0 {
      UndoWalksBack(Undone(v), k - 1);
    }
  }

  lemma LastFromEnd(u: seq<Snap>, log: seq<Snap>, k: nat)
    requires 0 < k <= 100 && k <= |log|
    ensures var s := Last(u + log, 100); k <= |s| && s[|s| - k] == log[|log| - k]
  {
  }

  /** After any run, k undos bring back the state before the k-th last edit, for every k up to a hundred. */
  lemma UndoRestores(v: View, armed: bool, es: seq<Event>, k: nat)
    requires Inv(v) && ArmedOk(v, armed) && Legal(v, armed, es) && NoReplacing(es)
    requires 0 < k <= 100 && k <= |Log(v, armed, es)|
    ensures var log := Log(v, armed, es);
      var n := UndoTimes(Run(v, armed, es), k);
      n.text == log[|log| - k].raw && n.cursor == log[|log| - k].cursor && !n.hasSel
  {
    hide *;
    StackIsLastHundred(v, armed, es);
    var n := Run(v, armed, es);
    LastFromEnd(v.undo, Log(v, armed, es), k);
    UndoWalksBack(n, k);
  }

  /** Up to a hundred edits with any navigation between, then as many undos: the starting text is back, and
      the cursor is that of the first edit. */
  lemma UndoAllRestoresStart(v: View, armed: bool, es: seq<Event>)
    requires Inv(v) && ArmedOk(v, armed) && Legal(v, armed, es) && NoReplacing(es)
    requires |Log(v, armed, es)| <= 100
    ensures var log := Log(v, armed, es);
      var n := UndoTimes(Run(v, armed, es), |log|);
      n.text == v.text && (log != [] ==> n.cursor == log[0].cursor)
  {
    StackIsLastHundred(v, armed, es);
    if Log(v, armed, es) != [] {
      UndoRestores(v, armed, es, |Log(v, armed, es)|);
    }
  }

  /** Past a hundred edits nothing older is left: further undos do nothing. */
  lemma UndoStopsAtHundred(v: View, armed: bool, es: seq<Event>, k: nat)
    requires Inv(v) && ArmedOk(v, armed) && Legal(v, armed, es) && NoReplacing(es)
    requires |Log(v, armed, es)| >= 100 && k >= 100
    ensures UndoTimes(Run(v, armed, es), k) == UndoTimes(Run(v, armed, es), 100)
    decreases k
  {
    hide Inv, ArmedOk, Legal, Log, Run, UndoTimes;
    StackIsLastHundred(v, armed, es);
    UndoWalksBack(Run(v, armed, es), UNDO_LIMIT);
    UndoEmpty(Run(v, armed, es), UNDO_LIMIT, k - UNDO_LIMIT);
  }

  lemma {:induction false} UndoEmpty(v: View, k: nat, more: nat)
    requires UndoTimes(v, k).undo == []
    ensures UndoTimes(v, k + more) == UndoTimes(v, k)
    decreases k, more
  {
    if k > 0 {
      UndoEmpty(Undone(v), k - 1, more);
    } else if more > 0 {
      UndoEmpty(v, 0, more - 1);
    }
  }

  // ---- cut and paste ----

  /** Cut removes exactly the selected text. */
  lemma CutRemovesSelected(v: View)
    requires Inv(v) && v.hasSel
    ensures From(v) <= To(v) <= |v.text| && Selected(v) == v.text[From(v)..To(v)]
    ensures var c := Step(v, Cut);
      && Inv(c) && !c.hasSel && !c.shiftSel
      && c.text == v.text[..From(v)] + v.text[To(v)..] && c.cursor == PosOf(c.text, From(v))
        && From(c) == To(c) == From(v)
  {
    FromTo(v);
    StepKeeps(v, Cut);
    var c := Step(v, Cut);
    assert c.text == Splice(v.text, From(v), To(v), "");
    PosOfInText(c.text, From(v));
  }

  lemma PasteAtCursor(v: View, clip: string)
    requires Inv(v) && !v.hasSel && '\r' !in clip
    ensures From(v) == To(v) <= |v.text|
    ensures Step(v, Paste(clip)).text == Splice(v.text, From(v), From(v), clip)
    ensures clip != "" ==> Step(v, Paste(clip)).cursor == PosOf(Step(v, Paste(clip)).text, From(v) + |clip|)
    ensures clip == "" ==> Step(v, Paste(clip)) == v
  {
    FromTo(v);
    NormalisePlain(clip);
  }

  lemma PasteRestores(c: View, t: string, a: nat, b: nat)
    requires Inv(c) && !c.hasSel && a <= b <= |t| && '\r' !in t
    requires c.text == t[..a] + t[b..] && From(c) == a && c.cursor == PosOf(c.text, a)
    ensures Step(c, Paste(t[a..b])).text == t && Step(c, Paste(t[a..b])).cursor == PosOf(t, b)
  {
    hide Inv, Step, PosOf, From, To, Bounds;
    PasteAtCursor(c, t[a..b]);
    assert c.text[..a] == t[..a] && c.text[a..] == t[b..];
    assert Splice(c.text, a, a, t[a..b]) == t;
  }

  /** Pasting the cut text back restores the text, with the cursor at its end. */
  lemma CutThenPaste(v: View)
    requires Inv(v) && v.hasSel
    ensures Inv(Step(v, Cut)) && From(v) <= To(v) <= |v.text|
    ensures Step(Step(v, Cut), Paste(Selected(v))).text == v.text
    ensures Step(Step(v, Cut), Paste(Selected(v))).cursor == PosOf(v.text, To(v))
  {
    CutRemovesSelected(v);
    PasteRestores(Step(v, Cut), v.text, From(v), To(v));
  }

  // ---- select-all, Home and End on the flat text ----

  lemma LastIsEnd(lines: seq<string>)
    requires PlainLines(lines)
    ensures var p := Pos(|lines| - 1, |lines[|lines| - 1]|); InBounds(lines, p) && Offset(lines, p) == |Unlines(lines)|
  {
    var p := Pos(|lines| - 1, |lines[|lines| - 1]|);
    assert lines[p.line][..p.col] == lines[p.line];
    assert Before(lines, p) == lines;
  }

  lemma FirstIsStart(lines: seq<string>)
    requires PlainLines(lines)
    ensures Offset(lines, Pos(0, 0)) == 0
  {
    assert lines[0][..0] == "" && Before(lines, Pos(0, 0)) == [""];
    assert Unlines([""]) == "";
  }

  /** After select-all the selected text is the whole text. */
  lemma SelectAllSelectsAll(v: View)
    requires Inv(v)
    ensures Inv(Step(v, SelectAll)) && Selected(Step(v, SelectAll)) == v.text
  {
    hide ShiftOk, Lines, Offset;
    LinesPlain(v.text);
    var l, n := Lines(v.text), Step(v, SelectAll);
    StepKeeps(v, SelectAll);
    LastIsEnd(l);
    FirstIsStart(l);
    OffsetMonotone(l, Pos(0, 0), LastPos(v.text));
    assert n.anchor == Pos(0, 0) && n.sel == LastPos(v.text);
    FromTo(n);
    assert From(n) == 0 && To(n) == |v.text|;
    assert v.text[0..|v.text|] == v.text;
  }

  /** The start and the end of a line in the flat text: its text lies between them, and a line break or an end
      of the text on either side. */
  lemma LineInText(lines: seq<string>, k: nat)
    requires PlainLines(lines) && k < |lines|
    ensures var t, a, b := Unlines(lines), Offset(lines, Pos(k, 0)), Offset(lines, Pos(k, |lines[k]|));
      && a <= b <= |t| && t[a..b] == lines[k]
      && (a == 0 || t[a - 1] == '\n') && (b == |t| || t[b] == '\n')
  {
    var s, e, t := Pos(k, 0), Pos(k, |lines[k]|), Unlines(lines);
    var a, b := Offset(lines, s), Offset(lines, e);
    CutText(lines, s);
    CutText(lines, e);
    assert lines[k][..|lines[k]|] == lines[k] && lines[k][..0] == "" && lines[k][|lines[k]|..] == "";
    var before, after := lines[..k], lines[k + 1..];
    assert Before(lines, e) == S.Glue(Before(lines, s), [lines[k]]) by {
      assert "" + lines[k] == lines[k];
    }
    S.JoinGlue(Before(lines, s), [lines[k]], S.LF);
    assert Unlines([lines[k]]) == lines[k];
    assert t[..b] == t[..a] + lines[k];
    if k > 0 {
      EndsInBreak(before);
      assert t[..a] == Unlines(before + [""]);
      assert t[..a][a - 1] == t[a - 1];
    } else {
      assert Before(lines, s) == [""] && Unlines([""]) == "";
    }
    if k + 1 < |lines| {
      assert After(lines, e) == [""] + after && ([""] + after)[1..] == after;
      assert t[b..] == "" + "\n" + Unlines(after);
      assert t[b..][0] == t[b];
    } else {
      assert After(lines, e) == [""] && Unlines([""]) == "";
    }
  }

  lemma {:induction false} EndsInBreak(lines: seq<string>)
    requires lines != []
    ensures var t := Unlines(lines + [""]); t != "" && t[|t| - 1] == '\n'
  {
    var m := lines + [""];
    if |lines| == 1 {
      TwoLines(lines[0], "");
      assert m == [lines[0], ""];
    } else {
      EndsInBreak(lines[1..]);
      assert m[1..] == lines[1..] + [""];
    }
  }

  /** Home and End put the cursor next to the line breaks around it, or at an end of the text. */
  lemma HomeAndEnd(v: View)
    requires Inv(v)
    ensures var h, e, off := Step(v, Home), Step(v, End), OffsetOf(v.text, v.cursor);
      && Inv(h) && Inv(e) && h.text == e.text == v.text
      && var a, b := OffsetOf(v.text, h.cursor), OffsetOf(v.text, e.cursor);
        && a <= off <= b <= |v.text| && '\n' !in v.text[a..b]
        && (a == 0 || v.text[a - 1] == '\n') && (b == |v.text| || v.text[b] == '\n')
  {
    hide ShiftOk, Lines, Offset;
    LinesPlain(v.text);
    var l, k := Lines(v.text), v.cursor.line;
    StepKeeps(v, Home);
    StepKeeps(v, End);
    LineInText(l, k);
    OffsetMonotone(l, Pos(k, 0), v.cursor);
    OffsetMonotone(l, v.cursor, Pos(k, |l[k]|));
    assert Step(v, Home).cursor == Pos(k, 0) && Step(v, End).cursor == Pos(k, |l[k]|);
  }

  // ---- keys that take each other back ----

  lemma CursorIsPlace(v: View)
    requires Inv(v) && !v.hasSel
    ensures From(v) == To(v) <= |v.text| && PosOf(v.text, From(v)) == v.cursor
  {
    FromTo(v);
    LinesPlain(v.text);
    CutText(Lines(v.text), v.cursor);
  }

  lemma InsertOne(v: View, c: char, n: View)
    requires Inv(v) && !v.hasSel && c != '\r' && n == Insert(v, [c])
    ensures Inv(n) && !n.hasSel && From(v) <= |v.text| && n.text == Splice(v.text, From(v), From(v), [c])
    ensures From(n) == From(v) + 1
  {
    FromTo(v);
    InsertKeeps(v, [c]);
    PosOfInText(n.text, From(v) + 1);
  }

  /** Backspace takes back a typed character or line break: text and cursor are as before. */
  lemma TypeThenBackspace(v: View, ev: Event)
    requires Inv(v) && !v.hasSel && Ok(v, ev) && (ev.Rune? || ev.Return?)
    ensures Inv(Step(v, ev))
    ensures var n := Step(Step(v, ev), Backspace); Inv(n) && n.text == v.text && n.cursor == v.cursor
  {
    hide Inv, Step, Lines, OffsetOf, PosOf, Bounds, From, To, Insert;
    var c := if ev.Rune? then ev.r else '\n';
    CursorIsPlace(v);
    InvBounds(v);
    InsertOne(v, c, Insert(v, [c]));
    StepKeeps(v, ev);
    TypedIsInsert(v, ev, c);
    var m := Step(v, ev);
    StepKeeps(m, Backspace);
    InvBounds(m);
    ErasedBefore(m, v.text, c);
  }

  lemma TypedIsInsert(v: View, ev: Event, c: char)
    requires Inv(v) && !v.hasSel && Ok(v, ev) && (ev.Rune? || ev.Return?) && c == if ev.Rune? then ev.r else '\n'
    ensures Bounds(Insert(v, [c])) && Bounds(Step(v, ev))
    ensures var n, m := Insert(v, [c]), Step(v, ev);
      m.text == n.text && m.cursor == n.cursor && !m.hasSel && !n.hasSel && From(m) == From(n)
  {
    hide Insert, PosOf, Lines;
    InsertOne(v, c, Insert(v, [c]));
    StepKeeps(v, ev);
  }

  lemma ErasedBefore(m: View, text: string, c: char)
    requires Bounds(m) && !m.hasSel && '\r' !in text && 0 < From(m) <= |text| + 1
    requires m.text == Splice(text, From(m) - 1, From(m) - 1, [c])
    ensures var n := Step(m, Backspace); n.text == text && n.cursor == PosOf(text, From(m) - 1)
  {
    hide PosOf, OffsetOf;
    FromTo(m);
    var a := From(m) - 1;
    assert text[..a] + "" + text[a..] == text;
    assert Splice(m.text, a, a + 1, "") == text;
  }

  /** Right takes Left back, and Left takes Right back, away from the ends of the text. */
  lemma LeftAndRight(v: View)
    requires Inv(v) && !v.hasSel && !v.shiftHeld
    ensures Inv(Step(v, Left)) && Inv(Step(v, Right))
    ensures From(v) > 0 ==> Step(Step(v, Left), Right) == v
    ensures From(v) < |v.text| ==> Step(Step(v, Right), Left) == v
  {
    hide Lines, ShiftOk, OffsetOf, PosOf;
    StepKeeps(v, Left);
    StepKeeps(v, Right);
    CursorIsPlace(v);
    if From(v) > 0 { PosOfInText(v.text, From(v) - 1); }
    if From(v) < |v.text| { PosOfInText(v.text, From(v) + 1); }
  }
}

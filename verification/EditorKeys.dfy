/** What each key, the mouse and the clipboard do, said of the flat text and its lines alone. */
module EditorKeys {
  import opened Strings
  import opened EditorText
  import opened EditorSpec
  import opened SoftWrap
  import L = EditorLines
  import R = EditorRuns

  /** `s` and `e` are the two ends of what an edit replaces, in text order: those of the selection, or the cursor
      twice. */
  ghost predicate Ends(v: View, s: Pos, e: Pos) {
    && InText(v.text, s) && InText(v.text, e) && OffsetOf(v.text, s) <= OffsetOf(v.text, e)
    && if v.hasSel then (s == v.anchor && e == v.sel) || (s == v.sel && e == v.anchor) else s == e == v.cursor
  }

  lemma EndsAre(v: View, s: Pos, e: Pos)
    requires Bounds(v) && Ends(v, s, e)
    ensures From(v) == OffsetOf(v.text, s) && To(v) == OffsetOf(v.text, e) && From(v) <= To(v) <= |v.text|
    ensures v.hasSel ==> s == SelStart(v) && e == SelEnd(v)
  {
    FromTo(v);
    LinesPlain(v.text);
    var l := Lines(v.text);
    OffsetMonotone(l, s, e);
    OffsetMonotone(l, e, s);
  }

  lemma KeyOk(v: View, w: nat, visible: nat, k: L.Key)
    requires Inv(v) && w > 0 && !k.KeyOther?
    ensures Bounds(v) && Ok(v, L.KeyEvent(v, w, visible, k)) && Inv(Step(v, L.KeyEvent(v, w, visible, k)))
  {
    hide Step, L.PageTarget, Inv;
    InvBounds(v);
    if !L.Fixed(k) {
      L.PageStep(v, w, visible, k.KeyPageUp?);
    }
    StepKeeps(v, L.KeyEvent(v, w, visible, k));
  }

  /** What a press of key `k` makes of the view, shown with `w` columns and `visible` rows. */
  function Press(v: View, w: nat, visible: nat, k: L.Key): (n: View)
    requires Inv(v) && w > 0 && !k.KeyOther?
    ensures Inv(n)
  {
    KeyOk(v, w, visible, k);
    Step(v, L.KeyEvent(v, w, visible, k))
  }

  // ---- edits ----

  /** The part between the two ends is replaced by `ins`, the cursor goes behind it, no selection is left, and the
      state before is remembered. */
  ghost predicate Replaces(v: View, n: View, a: nat, b: nat, ins: string) {
    && a <= b <= |v.text| && n.text == v.text[..a] + ins + v.text[b..]
    && InText(n.text, n.cursor) && OffsetOf(n.text, n.cursor) == a + |ins| && !n.hasSel
    && n.undo != [] && n.undo[|n.undo| - 1] == Snap(v.text, v.cursor)
  }

  lemma EditReplaces(v: View, a: nat, b: nat, ins: string, n: View)
    requires Bounds(v) && a <= b <= |v.text| && '\r' !in ins && !n.hasSel
    requires var m := Edit(v, a, b, ins); n.text == m.text && n.cursor == m.cursor && n.undo == m.undo
    ensures Replaces(v, n, a, b, ins)
  {
    PosOfInText(n.text, a + |ins|);
  }

  /** Typed characters, line breaks, tabs and pasted text replace the selection, or go in at the cursor; a cut
      leaves nothing in its place. */
  lemma TypingReplaces(v: View, ev: Event, ins: string, s: Pos, e: Pos)
    requires Inv(v) && Ok(v, ev) && Ends(v, s, e)
    requires match ev
      case Rune(r) => ins == [r]
      case Return => ins == "\n"
      case Tab => !v.hasSel && ins == "    "
      case Paste(clip) => clip != "" && ins == Normalise(clip)
      case Cut => v.hasSel && ins == ""
      case _ => false
    ensures Replaces(v, Step(v, ev), OffsetOf(v.text, s), OffsetOf(v.text, e), ins)
    ensures v.hasSel || ev.Return? ==> !Step(v, ev).shiftSel
  {
    hide Normalise, PosOf, Push, Replaces, Lines;
    EndsAre(v, s, e);
    if ev.Paste? { NormaliseNoCr(ev.clip); }
    EditReplaces(v, From(v), To(v), ins, Step(v, ev));
  }

  /** Backspace and Delete remove the selection, or the one character before or behind the cursor; at an end of the
      text nothing changes. */
  lemma ErasingReplaces(v: View, w: nat, visible: nat, back: bool, s: Pos, e: Pos)
    requires Inv(v) && w > 0 && Ends(v, s, e)
    ensures var k := if back then L.KeyBackspace else L.KeyDelete;
      var n, a, b := Press(v, w, visible, k), OffsetOf(v.text, s), OffsetOf(v.text, e);
      if v.hasSel then Replaces(v, n, a, b, "")
      else if back && a > 0 then Replaces(v, n, a - 1, a, "")
      else if !back && b < |v.text| then Replaces(v, n, b, b + 1, "")
      else n == v.(shiftSel := false, shiftHeld := false)
  {
    hide Replaces, OffsetOf, Erase, CancelShift, Inv;
    InvBounds(v);
    EndsAre(v, s, e);
    ErasedIs(v, back);
  }

  lemma ErasedIs(v: View, back: bool)
    requires Bounds(v)
    ensures From(v) <= To(v) <= |v.text| && (!v.hasSel ==> From(v) == To(v))
    ensures var n, a, b := CancelShift(Erase(v, back)), From(v), To(v);
      if v.hasSel then Replaces(v, n, a, b, "")
      else if back && a > 0 then Replaces(v, n, a - 1, a, "")
      else if !back && b < |v.text| then Replaces(v, n, b, b + 1, "")
      else n == v.(shiftSel := false, shiftHeld := false)
  {
    hide PosOf, Push, Replaces, OffsetOf, Splice;
    FromTo(v);
    var n, a, b := CancelShift(Erase(v, back)), From(v), To(v);
    if v.hasSel {
      EditReplaces(v, a, b, "", n);
    } else if back && a > 0 {
      EditReplaces(v, a - 1, a, "", n);
    } else if !back && b < |v.text| {
      EditReplaces(v, b, b + 1, "", n);
    }
  }

  /** Tab with a selection: four blanks in front of each line it touches, all other lines as they were; both ends
      stand beside the character they stood beside, except that a start at the head of its line stays there; the
      cursor stays beside its character, or goes to the end of the selection if it was not in the first line. */
  lemma TabIndents(v: View, w: nat, visible: nat, s: Pos, e: Pos)
    requires Inv(v) && w > 0 && v.hasSel && Ends(v, s, e)
    ensures var n := Press(v, w, visible, L.KeyTab);
      var l, m := Lines(v.text), Lines(n.text);
      && |m| == |l| && '\r' !in n.text
      && (forall k :: 0 <= k < |l| ==>
            if s.line <= k <= e.line then |m[k]| >= 4 && m[k][..4] == "    " && m[k][4..] == l[k] else m[k] == l[k])
      && n.hasSel && InBounds(m, n.anchor) && InBounds(m, n.sel) && InBounds(m, n.cursor)
      && n.anchor.line == s.line && (if s.col == 0 then n.anchor.col == 0 else SameSide(m, n.anchor, l, s))
      && n.sel.line == e.line && SameSide(m, n.sel, l, e)
      && (if v.cursor.line == s.line then n.cursor.line == s.line && SameSide(m, n.cursor, l, v.cursor)
          else n.cursor == n.sel)
  {
    hide Push, Lines, OffsetOf, Unlines;
    EndsAre(v, s, e);
    KeyOk(v, w, visible, L.KeyTab);
    InvBounds(v);
    InvBounds(Press(v, w, visible, L.KeyTab));
    IndentKeeps(v);
    LinesPlain(v.text);
    var l := Lines(v.text);
    IndentedPlain(l, s.line, e.line);
    UnlinesPlain(Indented(l, s.line, e.line));
  }

  /** The rest of the line behind `q` is the rest behind `p`. */
  predicate SameSide(m: seq<string>, q: Pos, l: seq<string>, p: Pos)
    requires InBounds(m, q) && InBounds(l, p)
  {
    m[q.line][q.col..] == l[p.line][p.col..]
  }

  /** Return types a line break, and Tab without a selection four blanks. */
  lemma ReturnAndTabType(v: View, w: nat, visible: nat, s: Pos, e: Pos)
    requires Inv(v) && w > 0 && Ends(v, s, e)
    ensures var a, b := OffsetOf(v.text, s), OffsetOf(v.text, e);
      && Replaces(v, Press(v, w, visible, L.KeyReturn), a, b, "\n")
      && (!v.hasSel ==> Replaces(v, Press(v, w, visible, L.KeyTab), a, b, "    "))
  {
    hide Replaces, OffsetOf, Step;
    TypingReplaces(v, Return, "\n", s, e);
    if !v.hasSel { TypingReplaces(v, Tab, "    ", s, e); }
  }

  // ---- moves ----

  predicate Arrow(k: L.Key) {
    k.KeyLeft? || k.KeyRight? || k.KeyUp? || k.KeyDown? || k.KeyHome? || k.KeyEnd?
  }

  /** Where an arrow key takes a cursor at `p`, by the break before and behind it and by columns. */
  ghost predicate Goes(text: string, k: L.Key, p: Pos, q: Pos)
    requires InText(text, p) && InText(text, q) && Arrow(k)
  {
    var l, from, to := Lines(text), OffsetOf(text, p), OffsetOf(text, q);
    match k
    case KeyLeft => to == if from == 0 then 0 else from - 1
    case KeyRight => to == if from == |text| then from else from + 1
    case KeyHome => q.line == p.line && q.col == 0
    case KeyEnd => q.line == p.line && q.col == |l[q.line]|
    case KeyUp => if p.line == 0 then q == p else q.line == p.line - 1 && Closest(l, q, p.col)
    case KeyDown => if p.line == |l| - 1 then q == p else q.line == p.line + 1 && Closest(l, q, p.col)
  }

  /** Column `col`, or the end of a line that is shorter. */
  predicate Closest(l: seq<string>, q: Pos, col: nat)
    requires InBounds(l, q)
  {
    if col <= |l[q.line]| then q.col == col else q.col == |l[q.line]|
  }

  lemma CaretGoes(v: View, ev: Event, k: L.Key) returns (p: Pos)
    requires Bounds(v) && Arrow(k) && ev == L.EventOf(k)
    ensures InText(v.text, p) && Goes(v.text, k, v.cursor, p)
    ensures Step(v, ev) == if k.KeyLeft? then StepTo(v, p, SelStart(v))
      else if k.KeyRight? then StepTo(v, p, SelEnd(v)) else MoveTo(v, p)
  {
    hide MoveTo, StepTo, OffsetOf, PosOf;
    FromTo(v.(hasSel := false, shiftSel := false));
    var off := OffsetOf(v.text, v.cursor);
    match k
    case KeyLeft => PosOfInText(v.text, if off > 0 then off - 1 else off); p := CharLeft(v);
    case KeyRight => PosOfInText(v.text, if off < |v.text| then off + 1 else off); p := CharRight(v);
    case KeyUp => p := LineUp(v);
    case KeyDown => p := LineDown(v);
    case KeyHome => p := Pos(v.cursor.line, 0);
    case KeyEnd => p := Pos(v.cursor.line, |Lines(v.text)[v.cursor.line]|);
  }

  /** Without shift the cursor goes where the key says and no selection is left; but Left and Right with a selection
      go to its earlier and its later end. */
  lemma ArrowMoves(v: View, w: nat, visible: nat, k: L.Key, s: Pos, e: Pos)
    requires Inv(v) && w > 0 && Arrow(k) && !v.shiftHeld && Ends(v, s, e)
    ensures var n := Press(v, w, visible, k);
      && n.text == v.text && n.undo == v.undo && !n.hasSel && !n.shiftSel && !n.shiftHeld && InText(v.text, n.cursor)
      && if v.hasSel && k.KeyLeft? then n.cursor == s
         else if v.hasSel && k.KeyRight? then n.cursor == e
         else Goes(v.text, k, v.cursor, n.cursor)
  {
    hide Goes, OffsetOf, Step;
    EndsAre(v, s, e);
    var p := CaretGoes(v, L.EventOf(k), k);
  }

  /** With shift the cursor goes to the same place, selecting from where the first such key was pressed. */
  lemma ShiftArrowSelects(v: View, w: nat, visible: nat, k: L.Key)
    requires Inv(v) && w > 0 && Arrow(k) && v.shiftHeld
    ensures var n := Press(v, w, visible, k);
      && n.text == v.text && n.undo == v.undo && n.shiftHeld && n.shiftSel
      && InText(v.text, n.cursor) && Goes(v.text, k, v.cursor, n.cursor)
      && n.anchor == (if v.shiftSel then v.anchor else v.cursor)
      && n.sel == n.cursor && (n.hasSel <==> n.anchor != n.cursor)
  {
    hide Goes, OffsetOf, Step;
    InvBounds(v);
    var p := CaretGoes(v, L.EventOf(k), k);
  }

  lemma Apart(text: string, p: Pos, q: Pos)
    requires '\r' !in text && InText(text, p) && InText(text, q)
    ensures p == q <==> OffsetOf(text, p) == OffsetOf(text, q)
    ensures OffsetOf(text, p) <= |text| && OffsetOf(text, q) <= |text|
  {
    hide PosOf, Offset;
    LinesPlain(text);
    CutText(Lines(text), p);
    CutText(Lines(text), q);
  }

  /** The text between two places. */
  function BetweenPlaces(text: string, p: Pos, q: Pos): string
    requires '\r' !in text && InText(text, p) && InText(text, q)
  {
    Apart(text, p, q);
    var a, b := OffsetOf(text, p), OffsetOf(text, q);
    if a <= b then text[a..b] else text[b..a]
  }

  /** What a view has selected is the text between its anchor and the other end. */
  lemma SelectedIsBetween(v: View)
    requires Bounds(v) && InText(v.text, v.anchor) && InText(v.text, v.sel) && (v.hasSel <==> v.anchor != v.sel)
    ensures Selected(v) == BetweenPlaces(v.text, v.anchor, v.sel)
  {
    hide OffsetOf;
    FromTo(v);
    Apart(v.text, v.anchor, v.sel);
    LinesPlain(v.text);
    if v.hasSel {
      var before := OffsetOf(v.text, v.anchor) <= OffsetOf(v.text, v.sel);
      EndsAre(v, if before then v.anchor else v.sel, if before then v.sel else v.anchor);
    }
  }

  /** Any number of arrow keys with shift held select the text between where they began and where they ended. */
  lemma {:induction false} ShiftRunSelects(v: View, w: nat, visible: nat, ks: seq<L.Key>)
    requires Inv(v) && w > 0 && v.shiftHeld && (forall i :: 0 <= i < |ks| ==> Arrow(ks[i]))
    requires v.shiftSel ==> v.sel == v.cursor && (v.hasSel <==> v.anchor != v.cursor)
    ensures var n, from := PressAll(v, w, visible, ks), if v.shiftSel then v.anchor else v.cursor;
      && Inv(n) && n.text == v.text && InText(v.text, from)
      && (ks != [] || v.shiftSel ==> n.anchor == from && Selected(n) == BetweenPlaces(v.text, from, n.cursor))
    decreases |ks|
  {
    hide Goes, OffsetOf, Step, Lines, PosOf, BetweenPlaces, Selected;
    InvBounds(v);
    if ks == [] {
      if v.shiftSel { SelectedIsBetween(v); }
    } else {
      ShiftArrowSelects(v, w, visible, ks[0]);
      ShiftRunSelects(Press(v, w, visible, ks[0]), w, visible, ks[1..]);
    }
  }

  function PressAll(v: View, w: nat, visible: nat, ks: seq<L.Key>): View
    requires Inv(v) && w > 0 && forall i :: 0 <= i < |ks| ==> Arrow(ks[i])
    decreases |ks|
  {
    if ks == [] then v
    else
      assert Arrow(ks[0]);
      PressAll(Press(v, w, visible, ks[0]), w, visible, ks[1..])
  }

  /** Once shift is up, or focus is lost outside a drag, the next arrow key selects nothing. */
  lemma ShiftUpEnds(v: View, ev: Event, w: nat, visible: nat, k: L.Key)
    requires Inv(v) && w > 0 && Arrow(k) && (ev.ShiftUp? || (ev.FocusLost? && !v.dragging))
    ensures var u := Step(v, ev);
      && Inv(u) && u == v.(shiftHeld := false, shiftSel := false) && !Press(u, w, visible, k).hasSel
  {
    hide Goes, OffsetOf, Lines;
    StepKeeps(v, ev);
    var u := Step(v, ev);
    FromTo(u);
    InvBounds(u);
    var p := CaretGoes(u, L.EventOf(k), k);
  }

  /** With shift down, arrow keys select. */
  lemma ShiftDownStarts(v: View)
    requires Inv(v)
    ensures Inv(Step(v, ShiftDown)) && Step(v, ShiftDown) == v.(shiftHeld := true)
  {
    StepKeeps(v, ShiftDown);
  }

  // ---- pages, mouse, words, loading ----

  /** PageUp and PageDown go to the first column of the visual line a screenful away, or of the first or last one. */
  lemma PageMoves(v: View, w: nat, visible: nat, up: bool)
    requires Inv(v) && w > 0
    ensures var n := Press(v, w, visible, if up then L.KeyPageUp else L.KeyPageDown);
      var vs := Wrap(Lines(v.text), w);
      var (from, _) := Locate(vs, v.cursor.line, v.cursor.col);
      var (to, col) := Locate(vs, n.cursor.line, n.cursor.col);
      && col == 0 && 0 <= to < |vs|
      && (if up then to == (if from < visible then 0 else from - visible)
          else to == (if from + visible >= |vs| then |vs| - 1 else from + visible))
      && n.text == v.text && !n.hasSel && !n.shiftSel && !n.shiftHeld
  {
    hide Wrap, Locate, Lines, Inv;
    InvBounds(v);
    L.PageStep(v, w, visible, up);
    LinesPlain(v.text);
    var l := Lines(v.text);
    var vs := Wrap(l, w);
    var from := Locate(vs, v.cursor.line, v.cursor.col).0;
    var to := Clamp(if up then from - visible else from + visible, |vs| - 1);
    ChunkStart(l, w, to);
  }

  lemma ChunkStart(lines: seq<string>, w: nat, v: nat)
    requires lines != [] && w > 0 && v < |Wrap(lines, w)|
    ensures var vs := Wrap(lines, w); Locate(vs, vs[v].line, vs[v].off) == (v, 0)
  {
    WrapPartition(lines, w);
    RoundTrip(lines, w, v, 0);
  }

  /** A press and a drag select the text between the two points, and the cursor follows; pressing alone selects
      nothing. */
  lemma PressAndDragSelect(v: View, p: Pos, q: Pos)
    requires Inv(v) && InText(v.text, p) && InText(v.text, q)
    ensures var m := Step(v, EditorSpec.Press(p));
      && Inv(m) && !m.hasSel && m.cursor == p && m.text == v.text && !m.shiftHeld
      && var n := Step(m, DragTo(q));
        Inv(n) && n.text == v.text && n.cursor == q && Selected(n) == BetweenPlaces(v.text, p, q)
  {
    hide Lines, OffsetOf, Selected, BetweenPlaces;
    StepKeeps(v, EditorSpec.Press(p));
    var m := Step(v, EditorSpec.Press(p));
    StepKeeps(m, DragTo(q));
    SelectedIsBetween(Step(m, DragTo(q)));
  }

  /** A double tap selects the word: the characters from `from` to `to` of the line. */
  lemma WordIsSelected(v: View, line: nat, from: nat, to: nat)
    requires Inv(v) && from <= to && InText(v.text, Pos(line, to))
    ensures var n := Step(v, SelectWord(line, from, to));
      && Inv(n) && n.text == v.text && n.cursor == Pos(line, to)
      && Selected(n) == Lines(v.text)[line][from..to]
  {
    hide Lines, Offset, Selected;
    var n, l := Step(v, SelectWord(line, from, to)), Lines(v.text);
    StepKeeps(v, SelectWord(line, from, to));
    SelectedIsBetween(n);
    LinesPlain(v.text);
    L.SelectedLines(l, Pos(line, from), Pos(line, to));
    OneLine(l[line][from..to]);
  }

  lemma OneLine(s: string)
    ensures Unlines([s]) == s
  {
  }

  /** A loaded text is the normalised one, with the cursor at its start, nothing selected and nothing to undo. */
  lemma LoadingResets(v: View, raw: string)
    requires Inv(v)
    ensures var n := Step(v, SetText(raw));
      && Inv(n) && n.text == Normalise(raw) && InText(n.text, n.cursor) && OffsetOf(n.text, n.cursor) == 0
      && !n.hasSel && !n.shiftSel && !n.shiftHeld && n.undo == []
  {
    hide Lines, Normalise, Offset;
    StepKeeps(v, SetText(raw));
    NormaliseNoCr(raw);
    LinesPlain(Normalise(raw));
    R.FirstIsStart(Lines(Normalise(raw)));
  }

  /** All three line endings are one. */
  lemma LineEndingsAreOne(lines: seq<string>)
    requires PlainLines(lines)
    ensures Normalise(Join(lines, "\r\n")) == Normalise(Join(lines, "\r")) == Normalise(Join(lines, "\n"))
      == Join(lines, "\n")
  {
    hide Join, Split;
    ReplaceJoined(lines, CRLF, LF);
    JoinFree(lines, LF, '\r');
    NormalisePlain(Join(lines, LF));
    NoCr(Join(lines, LF));
    JoinFree(lines, "\r", '\n');
    NoLf(Join(lines, "\r"));
    ReplaceJoined(lines, "\r", LF);
  }

  lemma NoCr(s: string)
    requires '\r' !in s
    ensures ReplaceAll(s, "\r", LF) == s
  {
    forall i: nat ensures !At(s, "\r", i) {
      if i < |s| { assert s[i..i + 1][0] == s[i]; }
    }
    FindNone(s, "\r");
  }

  lemma NoLf(s: string)
    requires '\n' !in s
    ensures ReplaceAll(s, CRLF, LF) == s
  {
    forall i: nat ensures !At(s, CRLF, i) {
      if i + 2 <= |s| { assert s[i..i + 2][1] == s[i + 1]; }
    }
    FindNone(s, CRLF);
  }
}

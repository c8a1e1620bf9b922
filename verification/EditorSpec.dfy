/** What each editor event means, on the flat text: every edit is one splice, every caret move a place in the
    text. The bounds and undo guarantees over whole runs are proved here; the class in TextViewEntry.dfy
    refines these steps. */
module EditorSpec {
  import opened EditorText

  datatype Snap = Snap(raw: string, cursor: Pos)

  /** The editor as its user sees it. `text` is the newline-normalised content. */
  datatype View = View(
    text: string, cursor: Pos, anchor: Pos, sel: Pos,
    hasSel: bool, shiftSel: bool, shiftHeld: bool, dragging: bool, undo: seq<Snap>)

  datatype Event =
    | Rune(r: char) | Backspace | Delete | Return | Tab | Cut | Paste(clip: string)
    | Left | Right | Up | Down | Home | End | PageTo(p: Pos)
    | ShiftDown | ShiftUp | FocusLost
    | Press(p: Pos) | DragTo(p: Pos) | DragEnd | SelectWord(line: nat, from: nat, to: nat) | SelectAll
    | Undo | SetText(raw: string)

  const UNDO_LIMIT := 100
  const TAB := "    "

  // ---- invariant ----

  ghost predicate SnapOk(s: Snap) {
    '\r' !in s.raw && InText(s.raw, s.cursor)
  }

  /** The cursor, and both ends of a selection, lie inside the text; so do the remembered cursors. */
  ghost predicate Bounds(v: View) {
    && '\r' !in v.text && InText(v.text, v.cursor)
    && (v.hasSel ==> InText(v.text, v.anchor) && InText(v.text, v.sel))
    && |v.undo| <= UNDO_LIMIT
    && forall i :: 0 <= i < |v.undo| ==> SnapOk(v.undo[i])
  }

  /** A shift selection in progress has its anchor in the text, and not behind the cursor when nothing is selected. */
  ghost predicate ShiftOk(v: View)
    requires Bounds(v)
  {
    v.shiftSel ==>
      && v.shiftHeld && InText(v.text, v.anchor)
      && (!v.hasSel ==> OffsetOf(v.text, v.anchor) <= OffsetOf(v.text, v.cursor))
  }

  ghost predicate Inv(v: View) {
    Bounds(v) && ShiftOk(v)
  }

  lemma InvBounds(v: View)
    requires Inv(v)
    ensures Bounds(v) && InText(v.text, v.cursor)
  {
  }

  /** What an event has to bring along: positions come from posFromPoint, and the toolkit never types a line break. */
  ghost predicate Ok(v: View, ev: Event) {
    match ev
    case Rune(r) => r != '\n' && r != '\r'
    case PageTo(p) => InText(v.text, p)
    case Press(p) => InText(v.text, p)
    case DragTo(p) => InText(v.text, p)
    case SelectWord(l, from, to) => from <= to && InText(v.text, Pos(l, to))
    case _ => true
  }

  // ---- edits ----

  function Push(undo: seq<Snap>, s: Snap): seq<Snap> {
    (if |undo| >= UNDO_LIMIT then undo[1..] else undo) + [s]
  }

  function SelStart(v: View): Pos { if Leq(v.anchor, v.sel) then v.anchor else v.sel }
  function SelEnd(v: View): Pos { if Leq(v.anchor, v.sel) then v.sel else v.anchor }

  /** The part of the flat text an edit replaces: the selection, or nothing at the cursor. */
  function From(v: View): nat
    requires Bounds(v)
  {
    OffsetOf(v.text, if v.hasSel then SelStart(v) else v.cursor)
  }

  function To(v: View): nat
    requires Bounds(v)
  {
    OffsetOf(v.text, if v.hasSel then SelEnd(v) else v.cursor)
  }

  lemma FromTo(v: View)
    requires Bounds(v)
    ensures From(v) <= To(v) <= |v.text|
  {
    LinesPlain(v.text);
    OffsetMonotone(Lines(v.text), if v.hasSel then SelStart(v) else v.cursor, if v.hasSel then SelEnd(v) else v.cursor);
    CutText(Lines(v.text), if v.hasSel then SelEnd(v) else v.cursor);
  }

  /** Replace text[a..b] by `ins`, put the cursor after it and remember the state before. */
  function Edit(v: View, a: nat, b: nat, ins: string): View
    requires a <= b <= |v.text|
  {
    var t := Splice(v.text, a, b, ins);
    v.(text := t, cursor := PosOf(t, a + |ins|), undo := Push(v.undo, Snap(v.text, v.cursor)))
  }

  function Deselect(v: View): View { if v.hasSel then v.(hasSel := false, shiftSel := false) else v }
  function CancelShift(v: View): View { v.(hasSel := false, shiftSel := false, shiftHeld := false) }

  function Insert(v: View, ins: string): View
    requires Bounds(v)
  {
    FromTo(v);
    Deselect(Edit(v, From(v), To(v), ins))
  }

  /** The text with the part an edit replaces replaced. */
  function Replaced(v: View, ins: string): string
    requires Bounds(v)
  {
    FromTo(v);
    Splice(v.text, From(v), To(v), ins)
  }

  function Selected(v: View): string
    requires Bounds(v)
  {
    FromTo(v);
    if v.hasSel then v.text[From(v)..To(v)] else ""
  }

  /** Remove the selection, or the character on one side of the cursor. */
  function Erase(v: View, back: bool): View
    requires Bounds(v)
  {
    FromTo(v);
    if v.hasSel then Insert(v, "")
    else if back then if From(v) > 0 then Edit(v, From(v) - 1, From(v), "") else v
    else if To(v) < |v.text| then Edit(v, To(v), To(v) + 1, "") else v
  }

  /** Every selected line indented by one tab; the selection grows with it. */
  function Indented(lines: seq<string>, from: nat, to: nat): seq<string> {
    seq(|lines|, i requires 0 <= i < |lines| => if from <= i <= to then TAB + lines[i] else lines[i])
  }

  function IndentSelection(v: View): View
    requires Bounds(v)
  {
    var s, e := SelStart(v), SelEnd(v);
    v.(text := Unlines(Indented(Lines(v.text), s.line, e.line)),
       anchor := Pos(s.line, if s.col > 0 then s.col + |TAB| else 0),
       sel := Pos(e.line, e.col + |TAB|),
       cursor := if v.cursor.line == s.line then Pos(s.line, v.cursor.col + |TAB|) else Pos(e.line, e.col + |TAB|),
       undo := Push(v.undo, Snap(v.text, v.cursor)))
  }

  // ---- caret moves ----

  predicate Caret(ev: Event) { ev.Left? || ev.Right? || ev.Up? || ev.Down? || ev.Home? || ev.End? }

  function Begin(v: View): View {
    if v.shiftSel then v else v.(shiftSel := true, anchor := v.cursor)
  }

  function Extend(v: View, p: Pos): View {
    v.(cursor := p, sel := p, hasSel := v.anchor != p)
  }

  /** A caret move: with shift held it extends the selection, without it drops one. */
  function MoveTo(v: View, p: Pos): View {
    if v.shiftHeld then Extend(Begin(v), p) else CancelShift(v).(cursor := p)
  }

  /** Left and Right: without shift and without a selection they leave the flags alone. */
  function StepTo(v: View, p: Pos, edge: Pos): View {
    if v.shiftHeld then Extend(Begin(v), p)
    else if v.hasSel then CancelShift(v).(cursor := edge)
    else v.(cursor := p)
  }

  function CharLeft(v: View): Pos
    requires Bounds(v)
  {
    FromTo(v.(hasSel := false, shiftSel := false));
    var off := OffsetOf(v.text, v.cursor);
    PosOf(v.text, if off > 0 then off - 1 else off)
  }

  function CharRight(v: View): Pos
    requires Bounds(v)
  {
    FromTo(v.(hasSel := false, shiftSel := false));
    var off := OffsetOf(v.text, v.cursor);
    PosOf(v.text, if off < |v.text| then off + 1 else off)
  }

  function Min(a: nat, b: nat): nat { if a <= b then a else b }

  function LineUp(v: View): Pos
    requires Bounds(v)
  {
    var l := v.cursor.line;
    if l > 0 then Pos(l - 1, Min(v.cursor.col, |Lines(v.text)[l - 1]|)) else v.cursor
  }

  function LineDown(v: View): Pos
    requires Bounds(v)
  {
    var l := v.cursor.line;
    if l + 1 < |Lines(v.text)| then Pos(l + 1, Min(v.cursor.col, |Lines(v.text)[l + 1]|)) else v.cursor
  }

  function LastPos(text: string): Pos {
    var l := Lines(text);
    Pos(|l| - 1, |l[|l| - 1]|)
  }

  function Undone(v: View): View {
    if v.undo == [] then v
    else
      var s := v.undo[|v.undo| - 1];
      CancelShift(v).(text := s.raw, cursor := s.cursor, undo := v.undo[..|v.undo| - 1])
  }

  function Step(v: View, ev: Event): View
    requires Bounds(v) && Ok(v, ev)
  {
    FromTo(v);
    match ev
    case Rune(r) => Insert(v, [r])
    case Backspace => CancelShift(Erase(v, true))
    case Delete => CancelShift(Erase(v, false))
    case Return => CancelShift(Insert(v, "\n"))
    case Tab => if v.hasSel then IndentSelection(v) else Insert(v, TAB)
    case Cut => if v.hasSel then Insert(v, "") else v
    case Paste(clip) => if clip == "" then v else Insert(v, Normalise(clip))
    case Left => StepTo(v, CharLeft(v), SelStart(v))
    case Right => StepTo(v, CharRight(v), SelEnd(v))
    case Up => MoveTo(v, LineUp(v))
    case Down => MoveTo(v, LineDown(v))
    case Home => MoveTo(v, Pos(v.cursor.line, 0))
    case End => MoveTo(v, Pos(v.cursor.line, |Lines(v.text)[v.cursor.line]|))
    case PageTo(p) => CancelShift(v).(cursor := p)
    case ShiftDown => v.(shiftHeld := true)
    case ShiftUp => v.(shiftHeld := false, shiftSel := false)
    case FocusLost => v.(shiftHeld := false, shiftSel := v.shiftSel && v.dragging)
    case Press(p) => CancelShift(v).(anchor := p, sel := p, cursor := p, dragging := false)
    case DragTo(p) => v.(sel := p, cursor := p, hasSel := v.anchor != p, dragging := true)
    case DragEnd => v.(dragging := false)
    case SelectWord(l, from, to) =>
      v.(anchor := Pos(l, from), sel := Pos(l, to), cursor := Pos(l, to), hasSel := from != to)
    case SelectAll => v.(anchor := Pos(0, 0), sel := LastPos(v.text), hasSel := true)
    case Undo => Undone(v)
    case SetText(raw) =>
      CancelShift(v).(text := Normalise(raw), cursor := Pos(0, 0), undo := [])
  }

  // ---- the invariant is kept ----

  /** A drag needs the anchor of its press to be still there, and focus must not go in the middle of a drag
      that met a shift selection (FocusLost then drops the shift key but keeps the selection going). */
  ghost predicate Orderly(v: View, ev: Event) {
    (ev.DragTo? ==> InText(v.text, v.anchor)) && (ev.FocusLost? ==> !(v.dragging && v.shiftSel))
  }

  lemma PushOk(undo: seq<Snap>, s: Snap)
    requires |undo| <= UNDO_LIMIT && SnapOk(s) && forall i :: 0 <= i < |undo| ==> SnapOk(undo[i])
    ensures |Push(undo, s)| <= UNDO_LIMIT && forall i :: 0 <= i < |Push(undo, s)| ==> SnapOk(Push(undo, s)[i])
  {
  }

  lemma EditKeeps(v: View, a: nat, b: nat, ins: string)
    requires Inv(v) && a <= b <= |v.text| && '\r' !in ins
    ensures Inv(CancelShift(Edit(v, a, b, ins)))
    ensures !v.hasSel && From(v) == a == b ==> Inv(Edit(v, a, b, ins))
  {
    var n := Edit(v, a, b, ins);
    PosOfInText(n.text, a + |ins|);
    PushOk(v.undo, Snap(v.text, v.cursor));
    if v.shiftSel && !v.hasSel && From(v) == a == b {
      AnchorKept(v.text, a, ins, v.anchor);
    }
  }

  lemma AnchorKept(text: string, a: nat, ins: string, q: Pos)
    requires '\r' !in text && '\r' !in ins && a <= |text| && InText(text, q) && OffsetOf(text, q) <= a
    ensures InText(Splice(text, a, a, ins), q) && OffsetOf(Splice(text, a, a, ins), q) == OffsetOf(text, q)
  {
    var p, l := PosOf(text, a), Lines(text);
    PosOfInText(text, a);
    LinesPlain(text);
    LinesPlain(ins);
    SpliceIsSplice(l, p, p, Lines(ins));
    KeptBefore(l, p, p, Lines(ins), q);
    UnlinesPlain(LineSplice(l, p, p, Lines(ins)));
  }

  lemma InsertKeeps(v: View, ins: string)
    requires Inv(v) && '\r' !in ins
    ensures Inv(Insert(v, ins))
  {
    FromTo(v);
    EditKeeps(v, From(v), To(v), ins);
    var n := Edit(v, From(v), To(v), ins);
    if v.hasSel {
      assert Inv(CancelShift(n));
    }
  }

  lemma IndentedPlain(lines: seq<string>, from: nat, to: nat)
    requires PlainLines(lines)
    ensures PlainLines(Indented(lines, from, to))
  {
  }

  lemma IndentedBounds(lines: seq<string>, from: nat, to: nat, p: Pos)
    requires InBounds(lines, p) && from <= p.line <= to
    ensures InBounds(Indented(lines, from, to), Pos(p.line, p.col + |TAB|))
    ensures InBounds(Indented(lines, from, to), Pos(p.line, if p.col > 0 then p.col + |TAB| else 0))
  {
  }

  lemma IndentKeeps(v: View)
    requires Inv(v) && v.hasSel
    ensures Inv(IndentSelection(v))
  {
    hide Indented, Lines, Push, OffsetOf, PlainLines;
    var l, s, e := Lines(v.text), SelStart(v), SelEnd(v);
    var ind := Indented(l, s.line, e.line);
    LinesPlain(v.text);
    IndentedPlain(l, s.line, e.line);
    UnlinesPlain(ind);
    IndentedBounds(l, s.line, e.line, s);
    IndentedBounds(l, s.line, e.line, e);
    if v.cursor.line == s.line { IndentedBounds(l, s.line, e.line, v.cursor); }
    PushOk(v.undo, Snap(v.text, v.cursor));
  }

  lemma MoveKeeps(v: View, p: Pos, edge: Pos)
    requires Inv(v) && InText(v.text, p) && InText(v.text, edge)
    ensures Inv(MoveTo(v, p)) && Inv(StepTo(v, p, edge))
  {
  }

  lemma StepKeeps(v: View, ev: Event)
    requires Inv(v) && Ok(v, ev) && Orderly(v, ev)
    ensures Inv(Step(v, ev))
  {
    hide Step, Inv, Bounds, ShiftOk, Ok, Orderly;
    match ev
    case Rune(_) | Return | Tab | Cut | Paste(_) => InsertEventKeeps(v, ev);
    case Backspace | Delete => EraseEventKeeps(v, ev);
    case Left | Right | Up | Down | Home | End => CaretKeeps(v, ev);
    case DragTo(_) | FocusLost => OrderlyKeeps(v, ev);
    case Undo | SetText(_) => ReplaceKeeps(v, ev);
    case _ => PlaceKeeps(v, ev);
  }

  lemma InsertEventKeeps(v: View, ev: Event)
    requires Inv(v) && Ok(v, ev) && (ev.Rune? || ev.Return? || ev.Tab? || ev.Cut? || ev.Paste?)
    ensures Inv(Step(v, ev))
  {
    hide Insert, IndentSelection, ShiftOk, Normalise, Lines;
    match ev
    case Rune(r) => InsertKeeps(v, [r]);
    case Return => InsertKeeps(v, "\n"); CancelKeeps(Insert(v, "\n"));
    case Tab => if v.hasSel { IndentKeeps(v); } else { InsertKeeps(v, TAB); }
    case Cut => InsertKeeps(v, "");
    case Paste(clip) => NormaliseNoCr(clip); InsertKeeps(v, Normalise(clip));
  }

  lemma CancelKeeps(v: View)
    requires Inv(v)
    ensures Inv(CancelShift(v))
  {
  }

  lemma EraseEventKeeps(v: View, ev: Event)
    requires Inv(v) && Ok(v, ev) && (ev.Backspace? || ev.Delete?)
    ensures Inv(Step(v, ev))
  {
    hide Erase, Inv, CancelShift;
    EraseKeeps(v, ev.Backspace?);
  }

  lemma OrderlyKeeps(v: View, ev: Event)
    requires Inv(v) && Ok(v, ev) && Orderly(v, ev) && (ev.DragTo? || ev.FocusLost?)
    ensures Inv(Step(v, ev))
  {
    hide OffsetOf, Lines;
  }

  lemma ReplaceKeeps(v: View, ev: Event)
    requires Inv(v) && Ok(v, ev) && (ev.Undo? || ev.SetText?)
    ensures Inv(Step(v, ev))
  {
    hide OffsetOf, Normalise;
    if ev.SetText? { NormaliseNoCr(ev.raw); LinesPlain(Normalise(ev.raw)); }
  }

  /** Presses, double taps, select-all, page keys, shift keys and the end of a drag. */
  lemma PlaceKeeps(v: View, ev: Event)
    requires Inv(v) && Ok(v, ev)
    requires ev.PageTo? || ev.ShiftDown? || ev.ShiftUp? || ev.Press? || ev.DragEnd? || ev.SelectWord? || ev.SelectAll?
    ensures Inv(Step(v, ev))
  {
    hide OffsetOf, Lines;
    LinesPlain(v.text);
  }

  lemma EraseKeeps(v: View, back: bool)
    requires Inv(v)
    ensures Inv(CancelShift(Erase(v, back)))
  {
    FromTo(v);
    if v.hasSel {
      InsertKeeps(v, "");
    } else if back && From(v) > 0 {
      EditKeeps(v, From(v) - 1, From(v), "");
    } else if !back && To(v) < |v.text| {
      EditKeeps(v, To(v), To(v) + 1, "");
    }
  }

  /** Where a caret move goes is in the text. */
  lemma CaretTarget(v: View, ev: Event) returns (p: Pos, edge: Pos)
    requires Bounds(v) && Caret(ev)
    ensures InText(v.text, p) && InText(v.text, edge)
    ensures Step(v, ev) == MoveTo(v, p) || Step(v, ev) == StepTo(v, p, edge)
  {
    hide MoveTo, OffsetOf, PosOf;
    FromTo(v.(hasSel := false, shiftSel := false));
    var off := OffsetOf(v.text, v.cursor);
    edge := if v.hasSel then if ev.Left? then SelStart(v) else SelEnd(v) else v.cursor;
    match ev
    case Left => PosOfInText(v.text, if off > 0 then off - 1 else off); p := CharLeft(v);
    case Right => PosOfInText(v.text, if off < |v.text| then off + 1 else off); p := CharRight(v);
    case Up => p := LineUp(v);
    case Down => p := LineDown(v);
    case Home => p := Pos(v.cursor.line, 0);
    case End => p := Pos(v.cursor.line, |Lines(v.text)[v.cursor.line]|);
  }

  lemma CaretKeeps(v: View, ev: Event)
    requires Inv(v) && Caret(ev)
    ensures Inv(Step(v, ev))
  {
    hide Step, MoveTo, StepTo, ShiftOk;
    var p, edge := CaretTarget(v, ev);
    MoveKeeps(v, p, edge);
  }

  // ---- exactly when the bounds hold ----

  /** The events that select from the anchor as it stands: a drag, and a caret move that goes on with a shift
      selection. */
  predicate UsesAnchor(v: View, ev: Event) {
    ev.DragTo? || (Caret(ev) && v.shiftHeld && v.shiftSel)
  }

  /** From any view within bounds, an event leaves the bounds if and only if it selects from an anchor that is
      no longer in the text. */
  lemma StepInBoundsIff(v: View, ev: Event)
    requires Bounds(v) && Ok(v, ev)
    ensures Bounds(Step(v, ev)) <==> (UsesAnchor(v, ev) ==> InText(v.text, v.anchor))
  {
    hide Step, Inv, Bounds, ShiftOk, Ok, MoveTo, StepTo;
    if Caret(ev) {
      var p, edge := CaretTarget(v, ev);
      MoveInBoundsIff(v, p, edge);
    } else if ev.DragTo? {
      DragInBoundsIff(v, ev.p);
    } else {
      var w := Unshifted(v);
      UnshiftedInv(v);
      UnshiftedStep(v, ev);
      StepKeeps(w, ev);
      UnshiftedBounds(Step(v, ev), Step(w, ev));
    }
  }

  /** A drag leaves the bounds if and only if the anchor of its press is no longer in the text. */
  lemma DragInBoundsIff(v: View, p: Pos)
    requires Bounds(v) && Ok(v, DragTo(p))
    ensures Bounds(Step(v, DragTo(p))) <==> InText(v.text, v.anchor)
    ensures Inv(v) ==> (Inv(Step(v, DragTo(p))) <==> InText(v.text, v.anchor))
  {
    hide OffsetOf, Lines;
  }

  /** Losing focus keeps the invariant if and only if it does not leave a drag with a shift selection. */
  lemma FocusLostKeepsIff(v: View)
    requires Inv(v)
    ensures Inv(Step(v, FocusLost)) <==> !(v.dragging && v.shiftSel)
    ensures Bounds(Step(v, FocusLost)) && (v.shiftSel ==> InText(v.text, v.anchor))
  {
  }

  lemma MoveInBoundsIff(v: View, p: Pos, edge: Pos)
    requires Bounds(v) && InText(v.text, p) && InText(v.text, edge)
    ensures Bounds(MoveTo(v, p)) <==> (v.shiftHeld && v.shiftSel ==> InText(v.text, v.anchor))
    ensures Bounds(StepTo(v, p, edge)) <==> (v.shiftHeld && v.shiftSel ==> InText(v.text, v.anchor))
  {
    hide Lines;
  }

  function Unshifted(v: View): View { v.(shiftSel := false) }

  lemma UnshiftedInv(v: View)
    requires Bounds(v)
    ensures Inv(Unshifted(v))
  {
  }

  lemma UnshiftedStep(v: View, ev: Event)
    requires Bounds(v) && Ok(v, ev) && !Caret(ev) && !ev.DragTo?
    ensures Bounds(Unshifted(v)) && Ok(Unshifted(v), ev) && Orderly(Unshifted(v), ev)
    ensures Unshifted(Step(v, ev)) == Unshifted(Step(Unshifted(v), ev))
  {
    hide PosOf, OffsetOf, Lines, Normalise, Splice, Push, Indented, Insert, Erase;
    match ev
    case Rune(r) => UnshiftedInsert(v, [r]);
    case Return => UnshiftedInsert(v, "\n");
    case Tab => UnshiftedInsert(v, TAB);
    case Cut => UnshiftedInsert(v, "");
    case Paste(clip) => UnshiftedInsert(v, Normalise(clip));
    case Backspace => UnshiftedErase(v, true);
    case Delete => UnshiftedErase(v, false);
    case _ =>
  }

  lemma UnshiftedInsert(v: View, ins: string)
    requires Bounds(v)
    ensures Bounds(Unshifted(v)) && Unshifted(Insert(v, ins)) == Unshifted(Insert(Unshifted(v), ins))
  {
    hide PosOf, OffsetOf, Lines, Splice, Push;
  }

  lemma UnshiftedErase(v: View, back: bool)
    requires Bounds(v)
    ensures Bounds(Unshifted(v)) && Unshifted(Erase(v, back)) == Unshifted(Erase(Unshifted(v), back))
  {
    hide PosOf, OffsetOf, Lines, Splice, Push, Insert;
    UnshiftedInsert(v, "");
  }

  lemma UnshiftedBounds(v: View, w: View)
    requires Unshifted(v) == Unshifted(w) && Inv(w)
    ensures Bounds(v)
  {
    hide Lines;
  }
}

/** The events of EditorSpec restated in terms of the list of lines, which is what the editor works on. */
module EditorLines {
  import opened Strings
  import opened EditorText
  import E = EditorSpec
  import opened SoftWrap

  datatype Key =
    | KeyBackspace | KeyDelete | KeyReturn | KeyTab | KeyLeft | KeyRight | KeyUp | KeyDown | KeyHome | KeyEnd
    | KeyPageUp | KeyPageDown | KeyOther

  /** The keys whose event does not depend on the view. */
  predicate Fixed(k: Key) { !k.KeyPageUp? && !k.KeyPageDown? && !k.KeyOther? }

  function EventOf(k: Key): E.Event
    requires Fixed(k)
  {
    match k
    case KeyBackspace => E.Backspace
    case KeyDelete => E.Delete
    case KeyReturn => E.Return
    case KeyTab => E.Tab
    case KeyLeft => E.Left
    case KeyRight => E.Right
    case KeyUp => E.Up
    case KeyDown => E.Down
    case KeyHome => E.Home
    case KeyEnd => E.End
  }

  /** Where LineSplice puts its pieces. */
  lemma SpliceShape(lines: seq<string>, s: Pos, e: Pos, m: seq<string>)
    requires InBounds(lines, s) && InBounds(lines, e) && m != []
    ensures var pre, post := lines[s.line][..s.col], lines[e.line][e.col..];
      LineSplice(lines, s, e, m) ==
        if |m| == 1 then lines[..s.line] + [pre + m[0] + post] + lines[e.line + 1..]
        else lines[..s.line] + [pre + m[0]] + m[1..|m| - 1] + [m[|m| - 1] + post] + lines[e.line + 1..]
  {
  }

  /** An edit of lines is the edit of the flat text. */
  lemma EditIsSplice(v: E.View, s: Pos, e: Pos, m: seq<string>)
    requires E.Bounds(v) && PlainLines(m)
    requires InText(v.text, s) && InText(v.text, e) && OffsetOf(v.text, s) <= OffsetOf(v.text, e)
    ensures PlainLines(LineSplice(Lines(v.text), s, e, m))
    ensures OffsetOf(v.text, e) <= |v.text|
    ensures E.Edit(v, OffsetOf(v.text, s), OffsetOf(v.text, e), Unlines(m)) ==
      v.(text := Unlines(LineSplice(Lines(v.text), s, e, m)), cursor := EndOfInsert(s, m),
         undo := E.Push(v.undo, E.Snap(v.text, v.cursor)))
  {
    LinesPlain(v.text);
    SpliceIsSplice(Lines(v.text), s, e, m);
  }

  /** One column on, or one line on, is one character on. */
  lemma OffsetInLine(lines: seq<string>, p: Pos, col: nat)
    requires PlainLines(lines) && InBounds(lines, p) && col <= p.col
    ensures Offset(lines, Pos(p.line, col)) + (p.col - col) == Offset(lines, p)
  {
    var l := lines[p.line];
    var a, b := Before(lines, Pos(p.line, col)), [l[col..p.col]];
    assert l[..p.col] == l[..col] + l[col..p.col];
    assert Before(lines, p) == Glue(a, b);
    JoinGlue(a, b, LF);
  }

  lemma OffsetOfNextLine(lines: seq<string>, l: nat)
    requires PlainLines(lines) && l + 1 < |lines|
    ensures Offset(lines, Pos(l + 1, 0)) == Offset(lines, Pos(l, |lines[l]|)) + 1
  {
    var a := Before(lines, Pos(l, |lines[l]|));
    assert lines[l][..|lines[l]|] == lines[l];
    TwoLines("", "");
    assert a[|a| - 1] + "" == a[|a| - 1];
    assert Before(lines, Pos(l + 1, 0)) == Glue(a, ["", ""]);
    JoinGlue(a, ["", ""], LF);
  }

  lemma EndOfText(lines: seq<string>, p: Pos)
    requires PlainLines(lines) && InBounds(lines, p)
    ensures Offset(lines, p) == |Unlines(lines)| <==> p.line == |lines| - 1 && p.col == |lines[p.line]|
    ensures Offset(lines, p) == 0 <==> p == Pos(0, 0)
  {
    var last, first := Pos(|lines| - 1, |lines[|lines| - 1]|), Pos(0, 0);
    assert lines[|lines| - 1][..last.col] == lines[|lines| - 1];
    assert Before(lines, last) == lines;
    CutText(lines, p);
    CutText(lines, last);
    CutText(lines, first);
    assert Before(lines, first) == [""];
  }

  /** The pieces of the lines between two places. */
  function Between(lines: seq<string>, s: Pos, e: Pos): (r: seq<string>)
    requires InBounds(lines, s) && InBounds(lines, e) && Leq(s, e)
    ensures |r| == e.line - s.line + 1
  {
    if s.line == e.line then [lines[s.line][s.col..e.col]]
    else [lines[s.line][s.col..]] + lines[s.line + 1..e.line] + [lines[e.line][..e.col]]
  }

  lemma SelectedLines(lines: seq<string>, s: Pos, e: Pos)
    requires PlainLines(lines) && InBounds(lines, s) && InBounds(lines, e) && Leq(s, e)
    ensures Offset(lines, s) <= Offset(lines, e) <= |Unlines(lines)|
    ensures Unlines(lines)[Offset(lines, s)..Offset(lines, e)] == Unlines(Between(lines, s, e))
  {
    CutText(lines, s);
    CutText(lines, e);
    var b, m := Before(lines, s), Between(lines, s, e);
    if s.line == e.line {
      assert lines[s.line][..e.col] == lines[s.line][..s.col] + lines[s.line][s.col..e.col];
    } else {
      assert lines[s.line] == lines[s.line][..s.col] + lines[s.line][s.col..];
    }
    assert Before(lines, e) == Glue(b, m);
    JoinGlue(b, m, LF);
    LeqOffset(lines, s, e);
    var t := Unlines(lines);
    assert t[Offset(lines, s)..Offset(lines, e)] == t[..Offset(lines, e)][Offset(lines, s)..];
  }

  /** Adding the next part, and a line break unless it is the last. */
  lemma JoinNext(text: string, parts: seq<string>, k: nat)
    requires k < |parts| && text + Unlines(parts[k..]) == Unlines(parts)
    ensures if k + 1 < |parts| then (text + parts[k]) + "\n" + Unlines(parts[k + 1..]) == Unlines(parts)
            else text + parts[k] == Unlines(parts)
  {
    assert parts[k..][1..] == parts[k + 1..];
    if k + 1 < |parts| {
      assert text + (parts[k] + LF + Unlines(parts[k + 1..])) == (text + parts[k]) + "\n" + Unlines(parts[k + 1..]);
    }
  }

  function EditFrom(v: E.View): Pos { if v.hasSel then E.SelStart(v) else v.cursor }
  function EditTo(v: E.View): Pos { if v.hasSel then E.SelEnd(v) else v.cursor }

  /** The lines an insertion of the pieces `m` leaves. */
  function InsertedLines(v: E.View, m: seq<string>): seq<string>
    requires E.Bounds(v) && m != []
  {
    LineSplice(Lines(v.text), EditFrom(v), EditTo(v), m)
  }

  function Remember(v: E.View): seq<E.Snap> {
    E.Push(v.undo, E.Snap(v.text, v.cursor))
  }

  /** Deleting the selection first and inserting then comes to the same lines, and these are the edited text. */
  ghost predicate Placed(v: E.View, m: seq<string>)
    requires E.Bounds(v) && m != []
  {
    var l, s, e := Lines(v.text), EditFrom(v), EditTo(v);
    && InBounds(l, s) && InBounds(l, e) && Leq(s, e)
    && InBounds(InsertedLines(v, [""]), s)
    && LineSplice(InsertedLines(v, [""]), s, s, m) == InsertedLines(v, m)
    && Unlines(InsertedLines(v, m)) == E.Replaced(v, Unlines(m))
  }

  /** What an insertion does to a view, in terms of lines. */
  ghost predicate Refined(v: E.View, m: seq<string>)
    requires E.Bounds(v) && m != []
  {
    && Normalise(Unlines(InsertedLines(v, m))) == Unlines(InsertedLines(v, m))
    && E.Insert(v, Unlines(m)) ==
       E.Deselect(v).(text := Unlines(InsertedLines(v, m)), cursor := EndOfInsert(EditFrom(v), m), undo := Remember(v))
    && E.Inv(E.Insert(v, Unlines(m)))
  }

  lemma InsertPlaced(v: E.View, m: seq<string>)
    requires E.Bounds(v) && m != []
    ensures Placed(v, m)
  {
    var l, s, e := Lines(v.text), EditFrom(v), EditTo(v);
    E.FromTo(v);
    LinesPlain(v.text);
    OffsetMonotone(l, s, e);
    DeleteThenInsert(l, s, e, m);
    SpliceText(l, s, e, m);
  }

  lemma InsertRefined(v: E.View, m: seq<string>)
    requires E.Inv(v) && PlainLines(m)
    ensures Refined(v, m)
  {
    hide LineSplice, EndOfInsert, E.Edit, E.Push, E.ShiftOk, Normalise, Lines, Splice, Join;
    InsertPlaced(v, m);
    E.FromTo(v);
    EditIsSplice(v, EditFrom(v), EditTo(v), m);
    UnlinesPlain(InsertedLines(v, m));
    NormalisePlain(Unlines(InsertedLines(v, m)));
    UnlinesPlain(m);
    E.InsertKeeps(v, Unlines(m));
  }

  // ---- each event's step, in terms of lines ----

  lemma SetTextStep(v: E.View, raw: string)
    requires E.Inv(v)
    ensures E.Step(v, E.SetText(raw)) == E.CancelShift(v).(text := Normalise(raw), cursor := Pos(0, 0), undo := [])
    ensures E.Inv(E.Step(v, E.SetText(raw)))
  {
    E.StepKeeps(v, E.SetText(raw));
  }

  lemma RuneStep(v: E.View, r: char)
    requires E.Inv(v)
    ensures Placed(v, [[r]]) && Unlines([[r]]) == [r]
    ensures Plain([r]) ==> Refined(v, [[r]]) && E.Step(v, E.Rune(r)) == E.Insert(v, [r])
  {
    hide Placed, Refined, E.Insert;
    InsertPlaced(v, [[r]]);
    if Plain([r]) {
      InsertRefined(v, [[r]]);
    }
  }

  lemma ReturnStep(v: E.View)
    requires E.Inv(v)
    ensures E.Step(v, E.Return) == E.CancelShift(E.Insert(v, Unlines(["", ""]))) && E.Inv(E.Step(v, E.Return))
    ensures Placed(v, ["", ""]) && Refined(v, ["", ""])
  {
    hide Placed, Refined, E.Insert;
    InsertPlaced(v, ["", ""]);
    InsertRefined(v, ["", ""]);
    TwoLines("", "");
    assert Unlines(["", ""]) == "" + "\n" + "" == "\n";
    E.StepKeeps(v, E.Return);
  }

  lemma TabStep(v: E.View)
    requires E.Inv(v) && !v.hasSel
    ensures Placed(v, [E.TAB]) && Refined(v, [E.TAB]) && E.Step(v, E.Tab) == E.Insert(v, Unlines([E.TAB]))
  {
    hide Placed, Refined, E.Insert;
    InsertPlaced(v, [E.TAB]);
    InsertRefined(v, [E.TAB]);
  }

  /** Removing a selection: Backspace, Delete and Cut. */
  lemma RemovalStep(v: E.View)
    requires E.Inv(v) && v.hasSel
    ensures E.Step(v, E.Backspace) == E.Step(v, E.Delete) == E.CancelShift(E.Insert(v, Unlines([""])))
    ensures E.Step(v, E.Cut) == E.Insert(v, Unlines([""]))
    ensures E.Inv(E.CancelShift(E.Insert(v, Unlines([""]))))
    ensures EndOfInsert(EditFrom(v), [""]) == E.SelStart(v) && Placed(v, [""]) && Refined(v, [""])
  {
    hide Placed, Refined, E.Insert;
    InsertPlaced(v, [""]);
    InsertRefined(v, [""]);
    E.StepKeeps(v, E.Backspace);
  }

  /** Cut without a selection and Paste from an empty clipboard do nothing. */
  lemma NothingToDo(v: E.View)
    requires E.Inv(v)
    ensures !v.hasSel ==> E.Step(v, E.Cut) == v
    ensures E.Step(v, E.Paste("")) == v
  {
  }

  lemma PasteStep(v: E.View, clip: string)
    requires E.Inv(v) && clip != ""
    ensures var m := Lines(Normalise(clip));
      && m != [] && Placed(v, m) && Refined(v, m) && E.Step(v, E.Paste(clip)) == E.Insert(v, Unlines(m))
  {
    hide Placed, Refined, E.Insert;
    NormaliseNoCr(clip);
    LinesPlain(Normalise(clip));
    InsertPlaced(v, Lines(Normalise(clip)));
    InsertRefined(v, Lines(Normalise(clip)));
  }

  /** The place one character before, or after, `p`. */
  function Prev(l: seq<string>, p: Pos): Pos
    requires InBounds(l, p)
  {
    if p.col > 0 then Pos(p.line, p.col - 1) else if p.line > 0 then Pos(p.line - 1, |l[p.line - 1]|) else p
  }

  function Next(l: seq<string>, p: Pos): Pos
    requires InBounds(l, p)
  {
    if p.col < |l[p.line]| then Pos(p.line, p.col + 1) else if p.line + 1 < |l| then Pos(p.line + 1, 0) else p
  }

  lemma Neighbours(l: seq<string>, p: Pos)
    requires PlainLines(l) && InBounds(l, p)
    ensures InBounds(l, Prev(l, p)) && InBounds(l, Next(l, p))
    ensures Offset(l, Prev(l, p)) == if Offset(l, p) > 0 then Offset(l, p) - 1 else 0
    ensures Offset(l, Next(l, p)) == if Offset(l, p) < |Unlines(l)| then Offset(l, p) + 1 else Offset(l, p)
    ensures Prev(l, p) == p <==> Offset(l, p) == 0
    ensures Next(l, p) == p <==> Offset(l, p) == |Unlines(l)|
  {
    EndOfText(l, p);
    CutText(l, p);
    if p.col > 0 {
      OffsetInLine(l, p, p.col - 1);
    } else if p.line > 0 {
      OffsetOfNextLine(l, p.line - 1);
    }
    if p.col < |l[p.line]| {
      OffsetInLine(l, Pos(p.line, p.col + 1), p.col);
    } else if p.line + 1 < |l| {
      OffsetOfNextLine(l, p.line);
    }
  }

  lemma NothingIsEmpty()
    ensures Unlines([""]) == ""
  {
  }

  /** Without a selection, Backspace and Delete remove the text up to the neighbouring place, if there is one. */
  lemma EraseStep(v: E.View, back: bool)
    requires E.Inv(v) && !v.hasSel
    ensures var l, ev := Lines(v.text), if back then E.Backspace else E.Delete;
      var s, e := if back then Prev(l, v.cursor) else v.cursor, if back then v.cursor else Next(l, v.cursor);
      && InBounds(l, s) && InBounds(l, e) && Leq(s, e) && E.Inv(E.Step(v, ev))
      && (s != e ==> Normalise(Unlines(LineSplice(l, s, e, [""]))) == Unlines(LineSplice(l, s, e, [""])))
      && E.Step(v, ev) == E.CancelShift(if s == e then v else
           v.(text := Unlines(LineSplice(l, s, e, [""])), cursor := s, undo := Remember(v)))
  {
    hide LineSplice, E.Edit, E.Push, E.Insert, Normalise, Lines, Splice, Join;
    var l := Lines(v.text);
    var s, e := if back then Prev(l, v.cursor) else v.cursor, if back then v.cursor else Next(l, v.cursor);
    LinesPlain(v.text);
    Neighbours(l, v.cursor);
    OffsetMonotone(l, s, e);
    EditIsSplice(v, s, e, [""]);
    UnlinesPlain(LineSplice(l, s, e, [""]));
    NormalisePlain(Unlines(LineSplice(l, s, e, [""])));
    E.FromTo(v);
    E.StepKeeps(v, if back then E.Backspace else E.Delete);
    NothingIsEmpty();
  }

  /** Left and Right move to the neighbouring place. */
  lemma StepCaret(v: E.View, left: bool)
    requires E.Inv(v)
    ensures var l, ev := Lines(v.text), if left then E.Left else E.Right;
      var p, edge := if left then Prev(l, v.cursor) else Next(l, v.cursor), if left then E.SelStart(v) else E.SelEnd(v);
      E.Inv(E.Step(v, ev)) && E.Step(v, ev) == E.StepTo(v, p, edge)
    ensures InText(v.text, v.cursor)
  {
    hide E.StepTo, Normalise, Lines;
    var l := Lines(v.text);
    LinesPlain(v.text);
    Neighbours(l, v.cursor);
    CutText(l, Prev(l, v.cursor));
    CutText(l, Next(l, v.cursor));
    E.FromTo(v.(hasSel := false, shiftSel := false));
    E.StepKeeps(v, if left then E.Left else E.Right);
  }

  /** The selection is indented line by line. */
  lemma IndentStep(v: E.View)
    requires E.Inv(v) && v.hasSel
    ensures var l, s, e := Lines(v.text), E.SelStart(v), E.SelEnd(v);
      && InBounds(l, s) && InBounds(l, e) && Leq(s, e)
      && E.Step(v, E.Tab) == E.IndentSelection(v) && E.Inv(E.IndentSelection(v))
      && Normalise(Unlines(E.Indented(l, s.line, e.line))) == Unlines(E.Indented(l, s.line, e.line))
  {
    hide E.ShiftOk, E.Push, Normalise, Lines, Join, E.Indented;
    var l, s, e := Lines(v.text), E.SelStart(v), E.SelEnd(v);
    LinesPlain(v.text);
    E.IndentKeeps(v);
    E.IndentedPlain(l, s.line, e.line);
    UnlinesPlain(E.Indented(l, s.line, e.line));
    NormalisePlain(Unlines(E.Indented(l, s.line, e.line)));
  }

  /** The place PageUp and PageDown go to: the start of the chunk a screenful away. */
  function PageTarget(lines: seq<string>, w: nat, cursor: Pos, visible: nat, up: bool): Pos
    requires w > 0
  {
    var vs := Wrap(lines, w);
    var cur := Locate(vs, cursor.line, cursor.col).0;
    if vs == [] then Pos(0, 0)
    else
      var vl := vs[Clamp(if up then cur - visible else cur + visible, |vs| - 1)];
      Pos(vl.line, vl.off)
  }

  /** What a key means, in a view shown with `w` columns and `visible` rows. */
  function KeyEvent(v: E.View, w: nat, visible: nat, k: Key): E.Event
    requires w > 0 && !k.KeyOther?
  {
    if Fixed(k) then EventOf(k) else E.PageTo(PageTarget(Lines(v.text), w, v.cursor, visible, k.KeyPageUp?))
  }

  lemma PageStep(v: E.View, w: nat, visible: nat, up: bool)
    requires E.Inv(v) && w > 0
    ensures var p := PageTarget(Lines(v.text), w, v.cursor, visible, up);
      && E.Ok(v, E.PageTo(p)) && E.Step(v, E.PageTo(p)) == E.CancelShift(v).(cursor := p)
        && E.Inv(E.Step(v, E.PageTo(p)))
    ensures var vs := Wrap(Lines(v.text), w); vs != [] && 0 <= Locate(vs, v.cursor.line, v.cursor.col).0 < |vs|
  {
    var l := Lines(v.text);
    WrapPartition(l, w);
    LocateCorrect(l, w, v.cursor.line, v.cursor.col);
    E.StepKeeps(v, E.PageTo(PageTarget(l, w, v.cursor, visible, up)));
  }

  /** posFromPoint gives places in the text. */
  lemma PointStep(v: E.View, w: nat, row: int, col: int)
    requires E.Inv(v) && w > 0
    ensures var (line, at) := PointToLogical(Wrap(Lines(v.text), w), row, col); InText(v.text, Pos(line, at))
  {
    PointInBounds(Lines(v.text), w, row, col);
  }

  /** Where Up, Down, Home and End go. */
  function MoveTarget(l: seq<string>, p: Pos, k: Key): Pos
    requires InBounds(l, p)
  {
    match k
    case KeyUp => if p.line > 0 then Pos(p.line - 1, E.Min(p.col, |l[p.line - 1]|)) else p
    case KeyDown => if p.line + 1 < |l| then Pos(p.line + 1, E.Min(p.col, |l[p.line + 1]|)) else p
    case KeyHome => Pos(p.line, 0)
    case KeyEnd => Pos(p.line, |l[p.line]|)
    case _ => p
  }

  lemma MoveStep(v: E.View, k: Key)
    requires E.Inv(v) && (k.KeyUp? || k.KeyDown? || k.KeyHome? || k.KeyEnd?)
    ensures E.Step(v, EventOf(k)) == E.MoveTo(v, MoveTarget(Lines(v.text), v.cursor, k)) && E.Inv(E.Step(v, EventOf(k)))
    ensures InText(v.text, v.cursor)
  {
    hide E.MoveTo, Normalise, Lines;
    E.StepKeeps(v, EventOf(k));
  }

  lemma UndoStep(v: E.View)
    requires E.Inv(v)
    ensures E.Step(v, E.Undo) == E.Undone(v) && E.Inv(E.Step(v, E.Undo))
    ensures v.undo != [] ==> Normalise(v.undo[|v.undo| - 1].raw) == v.undo[|v.undo| - 1].raw
  {
    E.StepKeeps(v, E.Undo);
    if v.undo != [] {
      NormalisePlain(v.undo[|v.undo| - 1].raw);
    }
  }

  lemma FlagStep(v: E.View, ev: E.Event)
    requires E.Inv(v) && E.Ok(v, ev) && E.Orderly(v, ev)
    requires ev.ShiftDown? || ev.ShiftUp? || ev.DragEnd? || ev.SelectAll? || ev.Press? || ev.SelectWord?
    ensures E.Inv(E.Step(v, ev))
  {
    hide Normalise, Lines;
    E.StepKeeps(v, ev);
  }

  /** A double tap at `p` makes `n` of `v`: the word there is selected, or nothing happens on an empty line. */
  ghost predicate WordTapped(v: E.View, n: E.View, p: Pos, isWord: char -> bool, from: nat, to: nat) {
    E.Bounds(v) && InText(v.text, p) &&
    var runes := Lines(v.text)[p.line];
    if runes == "" then n == v
    else
      && IsWordAt(runes, isWord, E.Min(p.col, |runes| - 1), from, to)
      && n == E.Step(v, E.SelectWord(p.line, from, to))
  }

  lemma TapSelects(v: E.View, p: Pos, isWord: char -> bool, from: nat, to: nat)
    requires E.Inv(v) && InText(v.text, p) && Lines(v.text)[p.line] != ""
    requires IsWordAt(Lines(v.text)[p.line], isWord, E.Min(p.col, |Lines(v.text)[p.line]| - 1), from, to)
    ensures var n := v.(anchor := Pos(p.line, from), sel := Pos(p.line, to), cursor := Pos(p.line, to),
      hasSel := from != to);
      WordTapped(v, n, p, isWord, from, to) && E.Inv(n)
  {
    hide Normalise, Lines, E.ShiftOk;
    FlagStep(v, E.SelectWord(p.line, from, to));
  }

  /** `from` and `to` enclose the word at a column: word characters only, and none left out on either side. */
  ghost predicate IsWordAt(runes: string, isWord: char -> bool, col: nat, from: nat, to: nat) {
    && from <= col <= to <= |runes|
    && (forall i :: from <= i < to ==> isWord(runes[i]))
    && (from > 0 ==> !isWord(runes[from - 1]))
    && (to < |runes| ==> !isWord(runes[to]))
  }
}

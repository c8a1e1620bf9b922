/** The editor widget itself: fields updated in place, edits done on the list of lines. Each method is shown
    to do to the flat text, the caret, the selection and the undo stack what EditorSpec.Step says. */
module TextViewEntry {
  import opened Strings
  import opened EditorText
  import E = EditorSpec
  import opened SoftWrap
  import opened EditorLines
  import Tokeniser
  import Limits = EditorLimits

  class TextViewEntry {
    var rawFull: string
    var scrollOffset: int
    var selAnchor: Pos              // selAnchorLine, selAnchorCol
    var sel: Pos                    // selLine, selCol
    var hasSelection: bool
    var cursor: Pos                 // cursorLine, cursorCol
    var undoStack: seq<E.Snap>
    var shiftSelecting: bool
    var shiftHeld: bool
    var dragging: bool
    var visualCache: seq<VLine>     // empty stands for nil
    var visualTokens: seq<seq<Tokeniser.Token>>
    var visualCacheRaw: string
    var visualCacheWidth: int
    var visualCacheValid: bool
    var charsPerLine: int           // from the renderer's size
    var visibleLines: nat           // 0 without a renderer
    var hasWindow: bool             // win != nil
    var clipboard: string

    ghost function View(): E.View
      reads this
    {
      E.View(Normalise(rawFull), cursor, selAnchor, sel, hasSelection, shiftSelecting, shiftHeld, dragging, undoStack)
    }

    ghost function TextLines(): seq<string>
      reads this
    {
      Lines(Normalise(rawFull))
    }

    /** Valid means: the cached lines are the wrap of the current text at the cached width, and the tokens theirs. It
        does not mean they belong to `visualCacheRaw`, which a resize blanks while the cache stays marked valid. */
    ghost predicate CacheOk()
      reads this
    {
      visualCacheValid && visualCache != [] ==>
        visualCache == Wrap(TextLines(), Width(visualCacheWidth)) && ColouredBy(visualCache, visualTokens, TextLines())
    }

    ghost predicate Valid()
      reads this
    {
      E.Inv(View()) && CacheOk()
    }

    constructor ()
      ensures Valid() && View() == E.View("", Pos(0, 0), Pos(0, 0), Pos(0, 0), false, false, false, false, [])
    {
      rawFull := "";
      scrollOffset := 0;
      selAnchor, sel, hasSelection, cursor := Pos(0, 0), Pos(0, 0), false, Pos(0, 0);
      undoStack := [];
      shiftSelecting, shiftHeld, dragging := false, false, false;
      visualCache, visualTokens, visualCacheRaw, visualCacheWidth, visualCacheValid := [], [], "", 0, false;
      charsPerLine, visibleLines, hasWindow, clipboard := 80, 0, false, "";
      NormalisePlain("");
    }

    /** The three flags that end a shift selection. */
    method CancelShift()
      modifies `shiftSelecting, `shiftHeld, `hasSelection
      ensures View() == E.CancelShift(old(View())) && (old(CacheOk()) ==> CacheOk())
    {
      shiftSelecting := false;
      shiftHeld := false;
      hasSelection := false;
    }

    method SetText(s: string)
      requires Valid()
      modifies this
      ensures Valid() && View() == E.Step(old(View()), E.SetText(s))
      ensures rawFull == s && scrollOffset == 0
    {
      hide E.Inv, E.Bounds, E.ShiftOk, E.Step, Normalise, Lines, Wrap, ColouredBy;
      SetTextStep(View(), s);
      CancelShift();
      rawFull := s;
      scrollOffset := 0;
      cursor := Pos(0, 0);
      undoStack := [];
      visualCacheValid := false;
    }

    /** splitRaw of the current content. */
    method LogicalLines() returns (lines: seq<string>)
      ensures lines == TextLines() && PlainLines(lines) && Unlines(lines) == Normalise(rawFull)
    {
      NormaliseNoCr(rawFull);
      LinesPlain(Normalise(rawFull));
      if rawFull == "" {
        NormalisePlain("");
        return [""];
      }
      var raw := ReplaceAll(rawFull, CRLF, LF);
      raw := ReplaceAll(raw, "\r", LF);
      return Split(raw, LF);
    }

    /** The cached visual lines, rebuilt when stale: always the wrap of the current text. */
    method Visual() returns (vs: seq<VLine>)
      requires CacheOk()
      modifies `visualCache, `visualTokens, `visualCacheRaw, `visualCacheWidth, `visualCacheValid
      ensures CacheOk() && vs == Wrap(TextLines(), Width(charsPerLine)) && ColouredBy(vs, visualTokens, TextLines())
      ensures View() == old(View())
    {
      hide Normalise, Lines, Wrap, ColouredBy;
      var raw := rawFull;
      if visualCache != [] && visualCacheValid && visualCacheRaw == raw && visualCacheWidth == charsPerLine {
        return visualCache;
      }
      var lines := LogicalLines();
      vs, visualTokens := BuildVisualLines(lines, charsPerLine);
      visualCache := vs;
      visualCacheRaw := raw;
      visualCacheWidth := charsPerLine;
      visualCacheValid := true;
    }

    method CommitLines(lines: seq<string>)
      modifies `rawFull, `visualCacheRaw, `visualCacheValid
      ensures rawFull == Unlines(lines) && CacheOk()
      ensures View() == old(View()).(text := Normalise(Unlines(lines)))
    {
      rawFull := Join(lines, LF);
      visualCacheRaw := "";
      visualCacheValid := false;
    }

    /** Layout and checkWrapWidth: a new size; a changed width blanks the cache key. */
    method Resize(newCharsPerLine: int, newVisibleLines: nat, widthChanged: bool)
      requires Valid()
      modifies `charsPerLine, `visibleLines, `visualCacheRaw
      ensures Valid() && View() == old(View())
      ensures charsPerLine == newCharsPerLine && visibleLines == newVisibleLines
    {
      hide E.Inv, E.Bounds, E.ShiftOk, E.Step, Normalise, Lines, Wrap, ColouredBy;
      charsPerLine, visibleLines := newCharsPerLine, newVisibleLines;
      if widthChanged {
        visualCacheRaw := "";
      }
    }

    /** Afterwards the caret's visual line is among the visible ones. */
    method EnsureCursorVisible()
      requires CacheOk()
      modifies `scrollOffset, `visualCache, `visualTokens, `visualCacheRaw, `visualCacheWidth, `visualCacheValid
      ensures CacheOk() && View() == old(View())
      ensures visibleLines > 0 ==>
        scrollOffset <= Locate(Wrap(TextLines(), Width(charsPerLine)), cursor.line, cursor.col).0 < scrollOffset
          + visibleLines
    {
      hide Normalise, Lines, Wrap, ColouredBy, Locate;
      if visibleLines <= 0 {
        return;
      }
      var visual := Visual();
      var vLine, _ := LogicalToVisual(visual, cursor.line, cursor.col);
      if vLine < scrollOffset {
        scrollOffset := vLine;
      } else if vLine >= scrollOffset + visibleLines {
        scrollOffset := vLine - visibleLines + 1;
      }
    }

    method PushUndo(prevRaw: string, prevCursor: Pos)
      modifies `undoStack
      ensures View() == old(View()).(undo := E.Push(old(undoStack), E.Snap(prevRaw, prevCursor)))
      ensures old(CacheOk()) ==> CacheOk()
    {
      if |undoStack| >= 100 {
        undoStack := undoStack[1..];
      }
      undoStack := undoStack + [E.Snap(prevRaw, prevCursor)];
    }

    method NormaliseSelection() returns (start: Pos, end: Pos)
      ensures start == E.SelStart(View()) && end == E.SelEnd(View())
    {
      if selAnchor.line > sel.line || (selAnchor.line == sel.line && selAnchor.col > sel.col) {
        return sel, selAnchor;
      }
      return selAnchor, sel;
    }

    /** The list work of deleteSelection. */
    static method CutLines(lines: seq<string>, s: Pos, e: Pos) returns (r: seq<string>)
      requires InBounds(lines, s) && InBounds(lines, e) && Leq(s, e)
      ensures r == LineSplice(lines, s, e, [""])
    {
      SpliceShape(lines, s, e, [""]);
      var startLine, startCol, endLine, endCol := s.line, s.col, e.line, e.col;
      if startLine >= |lines| {
        startLine := |lines| - 1;
      }
      if endLine >= |lines| {
        endLine := |lines| - 1;
      }
      assert lines[s.line][..s.col] + "" == lines[s.line][..s.col];
      if startLine == endLine {
        var runes := lines[startLine];
        if startCol > |runes| {
          startCol := |runes|;
        }
        if endCol > |runes| {
          endCol := |runes|;
        }
        var newRunes := runes[..startCol];
        newRunes := newRunes + runes[endCol..];
        r := lines[startLine := newRunes];
      } else {
        var startRunes, endRunes := lines[startLine], lines[endLine];
        if startCol > |startRunes| {
          startCol := |startRunes|;
        }
        if endCol > |endRunes| {
          endCol := |endRunes|;
        }
        var merged := startRunes[..startCol] + endRunes[endCol..];
        var newLines := lines[..startLine];
        newLines := newLines + [merged];
        newLines := newLines + lines[endLine + 1..];
        r := newLines;
      }
    }

    method DeleteSelection(lines: seq<string>) returns (r: seq<string>)
      requires hasSelection ==> InBounds(lines, selAnchor) && InBounds(lines, sel)
      modifies `cursor, `hasSelection, `shiftSelecting
      ensures var s, e := E.SelStart(old(View())), E.SelEnd(old(View()));
        if old(hasSelection) then
          InBounds(lines, s) && InBounds(lines, e) && r == LineSplice(lines, s, e, [""])
          && View() == old(View()).(cursor := s, hasSel := false, shiftSel := false)
        else r == lines && View() == old(View())
      ensures old(CacheOk()) ==> CacheOk()
    {
      hide Normalise, Lines, LineSplice, Wrap, ColouredBy;
      if !hasSelection {
        return lines;
      }
      var start, end := NormaliseSelection();
      r := CutLines(lines, start, end);
      cursor := start;
      hasSelection := false;
      shiftSelecting := false;
    }

    /** The list work of selectedText. */
    static method SliceLines(lines: seq<string>, s: Pos, e: Pos) returns (text: string)
      requires InBounds(lines, s) && InBounds(lines, e) && Leq(s, e)
      ensures text == Unlines(Between(lines, s, e))
    {
      var startLine, startCol, endLine, endCol := s.line, s.col, e.line, e.col;
      if startLine == endLine {
        var runes := lines[startLine];
        if startCol > |runes| {
          startCol := |runes|;
        }
        if endCol > |runes| {
          endCol := |runes|;
        }
        return runes[startCol..endCol];
      }
      text := "";
      hide Join, Between;
      var i := startLine;
      ghost var parts := Between(lines, s, e);
      assert parts[0..] == parts;
      while i <= endLine
        invariant startLine <= i <= endLine + 1
        invariant if i <= endLine then text + Unlines(parts[i - startLine..]) == Unlines(parts)
          else text == Unlines(parts)
      {
        if i >= |lines| {
          break;
        }
        JoinNext(text, parts, i - startLine);
        var part := SliceOf(lines, s, e, i);
        text := text + part;
        if i < endLine {
          text := text + "\n";
        }
        i := i + 1;
      }
    }

    /** What one line contributes to the selected text. */
    static method SliceOf(lines: seq<string>, s: Pos, e: Pos, i: nat) returns (part: string)
      requires InBounds(lines, s) && InBounds(lines, e) && s.line < e.line && s.line <= i <= e.line
      ensures part == Between(lines, s, e)[i - s.line]
    {
      var runes := lines[i];
      var lo, hi := 0, |runes|;
      if i == s.line {
        lo := s.col;
      }
      if i == e.line {
        hi := e.col;
        if hi > |runes| {
          hi := |runes|;
        }
      }
      if lo > |runes| {
        lo := |runes|;
      }
      part := runes[lo..hi];
    }

    /** selectedText is exactly the part of the text an edit would replace. */
    method SelectedText() returns (text: string)
      requires Valid()
      ensures text == E.Selected(View())
    {
      if !hasSelection {
        return "";
      }
      var lines := LogicalLines();
      var start, end := NormaliseSelection();
      E.FromTo(View());
      SelectedLines(lines, start, end);
      text := SliceLines(lines, start, end);
    }

    // ---- typing ----

    /** How every edit ends: remember the state before, commit the lines, place the caret. */
    method Finish(prevRaw: string, prevCursor: Pos, lines: seq<string>, p: Pos)
      requires CacheOk()
      modifies `undoStack, `rawFull, `visualCacheRaw, `visualCacheValid, `cursor
      ensures rawFull == Unlines(lines) && CacheOk()
      ensures View() == old(View()).(text := Normalise(Unlines(lines)), cursor := p,
                                     undo := E.Push(old(undoStack), E.Snap(prevRaw, prevCursor)))
    {
      PushUndo(prevRaw, prevCursor);
      CommitLines(lines);
      cursor := p;
    }

    /** The runes of a line with `ins` put in at a column. */
    static method InsertRunes(lines: seq<string>, p: Pos, ins: string) returns (r: seq<string>)
      requires InBounds(lines, p)
      ensures r == LineSplice(lines, p, p, [ins])
    {
      SpliceShape(lines, p, p, [ins]);
      var cl, cc := p.line, p.col;
      if cl >= |lines| {
        cl := |lines| - 1;
      }
      var runes := lines[cl];
      if cc > |runes| {
        cc := |runes|;
      }
      var newRunes := runes[..cc];
      newRunes := newRunes + ins;
      newRunes := newRunes + runes[cc..];
      r := lines[cl := newRunes];
    }

    method TypedRune(r: char)
      requires Valid()
      modifies this
      ensures rawFull == E.Replaced(old(View()), [r])
      ensures cursor == EndOfInsert(EditFrom(old(View())), [[r]])
      ensures InText(View().text, cursor) <==> Plain([r])
      ensures Valid() <==> Plain([r])
      ensures Plain([r]) ==> View() == E.Step(old(View()), E.Rune(r))
    {
      hide E.Inv, E.Bounds, E.ShiftOk, E.Step, E.Insert, E.Replaced, Normalise, Lines, Wrap, ColouredBy, Locate,
        LineSplice;
      RuneStep(View(), r);
      E.InvBounds(View());
      Limits.TypedOverInBoundsIff(View(), r);
      var lines := LogicalLines();
      var prevRaw := Join(lines, LF);
      var prev := cursor;
      if hasSelection {
        lines := DeleteSelection(lines);
      }
      var at := cursor;
      lines := InsertRunes(lines, at, [r]);
      Finish(prevRaw, prev, lines, Pos(at.line, at.col + 1));
      EnsureCursorVisible();
      if E.Inv(View()) {
        E.InvBounds(View());
      }
    }

    /** Removing the selected text is the same for Backspace, Delete and Cut. */
    method RemoveSelection()
      requires Valid() && hasSelection
      modifies `undoStack, `rawFull, `visualCacheRaw, `visualCacheValid, `cursor, `hasSelection, `shiftSelecting
      ensures View() == E.Insert(old(View()), "") && CacheOk()
    {
      hide E.Inv, E.Bounds, E.ShiftOk, E.Step, E.Insert, E.Replaced, Normalise, Lines, Wrap, ColouredBy, Locate,
        LineSplice;
      RemovalStep(View());
      NothingIsEmpty();
      var lines := LogicalLines();
      var prevRaw := Join(lines, LF);
      var prev := cursor;
      lines := DeleteSelection(lines);
      Finish(prevRaw, prev, lines, cursor);
    }

    /** Two neighbouring lines merged into one. */
    static method MergeLines(lines: seq<string>, l: nat) returns (r: seq<string>)
      requires l + 1 < |lines|
      ensures r == LineSplice(lines, Pos(l, |lines[l]|), Pos(l + 1, 0), [""])
    {
      hide LineSplice;
      SpliceShape(lines, Pos(l, |lines[l]|), Pos(l + 1, 0), [""]);
      assert lines[l][..|lines[l]|] + "" + lines[l + 1][0..] == lines[l] + lines[l + 1];
      var merged := lines[l] + lines[l + 1];
      r := lines[..l];
      r := r + [merged];
      r := r + lines[l + 2..];
    }

    method TypedBackspace()
      requires Valid()
      modifies this
      ensures CacheOk() && View() == E.Step(old(View()), E.Backspace) && E.Inv(View())
    {
      hide E.Inv, E.Bounds, E.ShiftOk, E.Step, E.Insert, E.Replaced, Normalise, Lines, Wrap, ColouredBy, Locate,
        LineSplice;
      ghost var v := View();
      if hasSelection {
        RemovalStep(v);
        NothingIsEmpty();
        RemoveSelection();
        CancelShift();
        return;
      }
      EraseStep(v, true);
      var lines := LogicalLines();
      var prevRaw := Join(lines, LF);
      var cl, cc := cursor.line, cursor.col;
      if cc > 0 {
        lines := CutLines(lines, Pos(cl, cc - 1), cursor);
        Finish(prevRaw, cursor, lines, Pos(cl, cc - 1));
      } else if cl > 0 {
        var prevRunes := lines[cl - 1];
        lines := MergeLines(lines, cl - 1);
        Finish(prevRaw, cursor, lines, Pos(cl - 1, |prevRunes|));
      }
      CancelShift();
    }

    method TypedDelete()
      requires Valid()
      modifies this
      ensures CacheOk() && View() == E.Step(old(View()), E.Delete) && E.Inv(View())
    {
      hide E.Inv, E.Bounds, E.ShiftOk, E.Step, E.Insert, E.Replaced, Normalise, Lines, Wrap, ColouredBy, Locate,
        LineSplice;
      ghost var v := View();
      if hasSelection {
        RemovalStep(v);
        NothingIsEmpty();
        RemoveSelection();
        CancelShift();
        return;
      }
      EraseStep(v, false);
      var lines := LogicalLines();
      var prevRaw := Join(lines, LF);
      var cl, cc := cursor.line, cursor.col;
      if cc < |lines[cl]| {
        lines := CutLines(lines, cursor, Pos(cl, cc + 1));
        Finish(prevRaw, cursor, lines, cursor);
      } else if cl < |lines| - 1 {
        lines := MergeLines(lines, cl);
        Finish(prevRaw, cursor, lines, cursor);
      }
      CancelShift();
    }

    /** A line broken in two, or pasted lines put in between. */
    static method InsertLines(lines: seq<string>, p: Pos, m: seq<string>) returns (r: seq<string>)
      requires InBounds(lines, p) && |m| > 1
      ensures r == LineSplice(lines, p, p, m)
    {
      SpliceShape(lines, p, p, m);
      var runes := lines[p.line];
      var firstPart := runes[..p.col] + m[0];
      var lastPart := m[|m| - 1] + runes[p.col..];
      r := lines[..p.line];
      r := r + [firstPart];
      r := r + m[1..|m| - 1];
      r := r + [lastPart];
      r := r + lines[p.line + 1..];
    }

    method TypedReturn()
      requires Valid()
      modifies this
      ensures CacheOk() && View() == E.Step(old(View()), E.Return) && E.Inv(View())
    {
      hide E.Inv, E.Bounds, E.ShiftOk, E.Step, E.Insert, E.Replaced, Normalise, Lines, Wrap, ColouredBy, Locate,
        LineSplice;
      ReturnStep(View());
      var lines := LogicalLines();
      var prevRaw := Join(lines, LF);
      var prev := cursor;
      if hasSelection {
        lines := DeleteSelection(lines);
      }
      var at := cursor;
      lines := InsertLines(lines, at, ["", ""]);
      Finish(prevRaw, prev, lines, Pos(at.line + 1, 0));
      CancelShift();
    }

    /** `indent + line` for every selected line. */
    static method IndentLines(lines: seq<string>, startLine: nat, endLine: nat) returns (r: seq<string>)
      requires startLine <= endLine < |lines|
      ensures r == E.Indented(lines, startLine, endLine)
    {
      r := lines;
      var i := startLine;
      while i <= endLine
        invariant startLine <= i <= endLine + 1 && |r| == |lines|
        invariant forall k :: 0 <= k < |r| ==> r[k] == if startLine <= k < i then E.TAB + lines[k] else lines[k]
      {
        r := r[i := E.TAB + r[i]];
        i := i + 1;
      }
    }

    method IndentSelected()
      requires Valid() && hasSelection
      modifies this
      ensures CacheOk() && View() == E.Step(old(View()), E.Tab) && E.Inv(View())
    {
      hide E.Inv, E.Bounds, E.ShiftOk, E.Step, E.Indented, Normalise, Lines, Wrap, ColouredBy, Locate, LineSplice;
      IndentStep(View());
      var lines := LogicalLines();
      var prevRaw := Join(lines, LF);
      var prev := cursor;
      var start, end := NormaliseSelection();
      lines := IndentLines(lines, start.line, end.line);
      var newCursor := if prev.line == start.line then Pos(start.line, prev.col + 4) else Pos(end.line, end.col + 4);
      Finish(prevRaw, prev, lines, newCursor);
      SelectBetween(Pos(start.line, if start.col > 0 then start.col + 4 else 0), Pos(end.line, end.col + 4));
    }

    method TypedTab()
      requires Valid()
      modifies this
      ensures CacheOk() && View() == E.Step(old(View()), E.Tab) && E.Inv(View())
    {
      hide E.Inv, E.Bounds, E.ShiftOk, E.Step, E.Insert, E.Replaced, Normalise, Lines, Wrap, ColouredBy, Locate,
        LineSplice;
      if hasSelection {
        IndentSelected();
        return;
      }
      TabStep(View());
      var lines := LogicalLines();
      var prevRaw := Join(lines, LF);
      var prev := cursor;
      lines := InsertRunes(lines, prev, E.TAB);
      Finish(prevRaw, prev, lines, Pos(prev.line, prev.col + 4));
    }

    method SelectBetween(a: Pos, b: Pos)
      modifies `selAnchor, `sel
      ensures View() == old(View()).(anchor := a, sel := b) && (old(CacheOk()) ==> CacheOk())
    {
      selAnchor := a;
      sel := b;
    }

    method MoveCursor(p: Pos)
      modifies `cursor
      ensures View() == old(View()).(cursor := p) && (old(CacheOk()) ==> CacheOk())
    {
      cursor := p;
    }

    method BeginShift()
      modifies `shiftSelecting, `selAnchor
      ensures View() == E.Begin(old(View())) && (old(CacheOk()) ==> CacheOk())
    {
      if !shiftSelecting {
        shiftSelecting := true;
        selAnchor := cursor;
      }
    }

    method UpdateShift()
      modifies `sel, `hasSelection
      ensures View() == E.Extend(old(View()), old(cursor)) && (old(CacheOk()) ==> CacheOk())
    {
      sel := cursor;
      hasSelection := selAnchor != sel;
    }

    /** The place one character before or after `p`, if there is one. */
    static method Neighbour(lines: seq<string>, p: Pos, left: bool) returns (target: Pos)
      requires InBounds(lines, p)
      ensures target == if left then Prev(lines, p) else Next(lines, p)
    {
      var cl, cc := p.line, p.col;
      target := p;
      if left {
        if cc > 0 {
          target := Pos(cl, cc - 1);
        } else if cl > 0 {
          target := Pos(cl - 1, |lines[cl - 1]|);
        }
      } else {
        if cc < |lines[cl]| {
          target := Pos(cl, cc + 1);
        } else if cl < |lines| - 1 {
          target := Pos(cl + 1, 0);
        }
      }
    }

    /** The keys that move by one character. */
    method TypedLeftRight(left: bool)
      requires Valid()
      modifies this
      ensures CacheOk() && View() == E.Step(old(View()), if left then E.Left else E.Right) && E.Inv(View())
    {
      hide E.Inv, E.Bounds, E.ShiftOk, E.Step, Normalise, Lines, Wrap, ColouredBy, Prev, Next;
      StepCaret(View(), left);
      var lines := LogicalLines();
      var isShift := shiftHeld;
      if isShift {
        BeginShift();
      } else if hasSelection {
        var start, end := NormaliseSelection();
        MoveCursor(if left then start else end);
        CancelShift();
        return;
      }
      var target := Neighbour(lines, cursor, left);
      MoveCursor(target);
      if isShift {
        UpdateShift();
      }
    }

    static method Target(lines: seq<string>, p: Pos, k: Key) returns (target: Pos)
      requires InBounds(lines, p) && (k.KeyUp? || k.KeyDown? || k.KeyHome? || k.KeyEnd?)
      ensures target == MoveTarget(lines, p, k)
    {
      var cl, cc := p.line, p.col;
      target := p;
      match k {
        case KeyUp =>
          if cl > 0 {
            target := Pos(cl - 1, if cc > |lines[cl - 1]| then |lines[cl - 1]| else cc);
          }
        case KeyDown =>
          if cl < |lines| - 1 {
            target := Pos(cl + 1, if cc > |lines[cl + 1]| then |lines[cl + 1]| else cc);
          }
        case KeyHome => target := Pos(cl, 0);
        case KeyEnd => target := Pos(cl, |lines[cl]|);
      }
    }

    /** The keys that move within a column or a line. */
    method TypedMove(k: Key)
      requires Valid() && (k.KeyUp? || k.KeyDown? || k.KeyHome? || k.KeyEnd?)
      modifies this
      ensures CacheOk() && View() == E.Step(old(View()), EventOf(k)) && E.Inv(View())
    {
      hide E.Inv, E.Bounds, E.ShiftOk, E.Step, MoveTarget, Normalise, Lines, Wrap, ColouredBy;
      MoveStep(View(), k);
      var lines := LogicalLines();
      var isShift := shiftHeld;
      if isShift {
        BeginShift();
      } else {
        CancelShift();
      }
      var target := Target(lines, cursor, k);
      MoveCursor(target);
      if isShift {
        UpdateShift();
      }
    }

    /** The visual line a screenful up or down, clamped. */
    static method PageLine(visual: seq<VLine>, curVLine: int, visible: nat, up: bool) returns (r: nat)
      requires 0 <= curVLine < |visual|
      ensures r < |visual| && r == Clamp(if up then curVLine - visible else curVLine + visible, |visual| - 1)
    {
      var targetVLine := if up then curVLine - visible else curVLine + visible;
      if up && targetVLine < 0 {
        targetVLine := 0;
      }
      if !up && targetVLine >= |visual| {
        targetVLine := |visual| - 1;
      }
      r := targetVLine;
    }

    method TypedPage(up: bool)
      requires Valid()
      modifies this
      ensures var p := PageTarget(Lines(old(View()).text), Width(old(charsPerLine)), old(cursor), old(visibleLines),
        up);
        CacheOk() && E.Ok(old(View()), E.PageTo(p)) && View() == E.Step(old(View()), E.PageTo(p)) && E.Inv(View())
    {
      hide E.Inv, E.Bounds, E.ShiftOk, E.Step, E.Ok, Normalise, Lines, Wrap, ColouredBy, Locate, Clamp;
      PageStep(View(), Width(charsPerLine), visibleLines, up);
      var visual := Visual();
      var curVLine, _ := LogicalToVisual(visual, cursor.line, cursor.col);
      var targetVLine := PageLine(visual, curVLine, visibleLines, up);
      MoveCursor(Pos(visual[targetVLine].line, visual[targetVLine].off));
      CancelShift();
    }

    /** Every key: those without a case only scroll the caret into view. */
    method TypedKey(k: Key)
      requires Valid()
      modifies this
      ensures Valid()
      ensures if k.KeyOther? then View() == old(View())
        else var ev := KeyEvent(old(View()), Width(old(charsPerLine)), old(visibleLines), k);
          E.Ok(old(View()), ev) && View() == E.Step(old(View()), ev)
    {
      hide E.Inv, E.Bounds, E.ShiftOk, E.Step, Normalise, Lines, Wrap, ColouredBy, PageTarget, Width;
      match k {
        case KeyBackspace => TypedBackspace();
        case KeyDelete => TypedDelete();
        case KeyReturn => TypedReturn();
        case KeyTab => TypedTab();
        case KeyLeft => TypedLeftRight(true);
        case KeyRight => TypedLeftRight(false);
        case KeyPageUp => TypedPage(true);
        case KeyPageDown => TypedPage(false);
        case KeyOther =>
        case _ => TypedMove(k);
      }
      EnsureCursorVisible();
    }

    // ---- shortcuts ----

    /** The state an undo entry brings back. */
    method Restore(s: E.Snap)
      requires |undoStack| > 0
      modifies `undoStack, `rawFull, `visualCacheValid, `cursor
      ensures CacheOk()
      ensures View() == old(View()).(text := Normalise(s.raw), cursor := s.cursor,
        undo := old(undoStack)[..|old(undoStack)| - 1])
    {
      undoStack := undoStack[..|undoStack| - 1];
      rawFull := s.raw;
      visualCacheValid := false;
      cursor := s.cursor;
    }

    method ShortcutUndo()
      requires Valid()
      modifies this
      ensures Valid() && View() == E.Step(old(View()), E.Undo)
    {
      hide E.Inv, E.Bounds, E.ShiftOk, E.Step, Normalise, Lines, Wrap, ColouredBy;
      UndoStep(View());
      if |undoStack| > 0 {
        Restore(undoStack[|undoStack| - 1]);
        CancelShift();
      }
    }

    method ShortcutSelectAll()
      requires Valid()
      modifies this
      ensures Valid() && View() == E.Step(old(View()), E.SelectAll)
    {
      hide E.Inv, E.Bounds, E.ShiftOk, Normalise, Lines, Wrap, ColouredBy;
      FlagStep(View(), E.SelectAll);
      var lines := LogicalLines();
      var last := |lines| - 1;
      SelectBetween(Pos(0, 0), Pos(last, |lines[last]|));
      hasSelection := true;
    }

    method ShortcutCopy()
      requires Valid()
      modifies `clipboard
      ensures Valid() && View() == old(View())
      ensures clipboard == if hasWindow && hasSelection then E.Selected(View()) else old(clipboard)
    {
      hide E.Inv, E.Bounds, E.ShiftOk, Normalise, Lines, Wrap, ColouredBy;
      if hasWindow && hasSelection {
        var text := SelectedText();
        clipboard := text;
      }
    }

    /** Cut puts the selected text on the clipboard and removes it. */
    method ShortcutCut()
      requires Valid()
      modifies this
      ensures Valid()
      ensures View() == if old(hasWindow) then E.Step(old(View()), E.Cut) else old(View())
      ensures clipboard == if old(hasWindow && hasSelection) then E.Selected(old(View())) else old(clipboard)
    {
      hide E.Inv, E.Bounds, E.ShiftOk, E.Step, E.Insert, E.Selected, Normalise, Lines, Wrap, ColouredBy, Locate,
        LineSplice;
      NothingToDo(View());
      if !hasWindow || !hasSelection {
        return;
      }
      RemovalStep(View());
      E.StepKeeps(View(), E.Cut);
      NothingIsEmpty();
      ShortcutCopy();
      RemoveSelection();
      EnsureCursorVisible();
    }

    /** Pasted text goes into one line, or breaks it in two. */
    method PutLines(prevRaw: string, prevCursor: Pos, lines: seq<string>, at: Pos, m: seq<string>)
      requires CacheOk() && InBounds(lines, at) && m != []
      modifies `undoStack, `rawFull, `visualCacheRaw, `visualCacheValid, `cursor
      ensures CacheOk()
      ensures View() == old(View()).(text := Normalise(Unlines(LineSplice(lines, at, at, m))),
        cursor := EndOfInsert(at, m),
                                     undo := E.Push(old(undoStack), E.Snap(prevRaw, prevCursor)))
    {
      hide Normalise, Lines, Wrap, ColouredBy, LineSplice;
      if |m| == 1 {
        assert m == [m[0]];
        var r := InsertRunes(lines, at, m[0]);
        Finish(prevRaw, prevCursor, r, Pos(at.line, at.col + |m[0]|));
      } else {
        var r := InsertLines(lines, at, m);
        Finish(prevRaw, prevCursor, r, Pos(at.line + |m| - 1, |m[|m| - 1]|));
      }
    }

    method ShortcutPaste()
      requires Valid()
      modifies this
      ensures Valid()
      ensures View() == if old(hasWindow) then E.Step(old(View()), E.Paste(clipboard)) else old(View())
      ensures clipboard == old(clipboard) && hasWindow == old(hasWindow)
    {
      hide E.Inv, E.Bounds, E.ShiftOk, E.Step, E.Insert, E.Replaced, Wrap, ColouredBy, Locate, LineSplice, Lines,
        Normalise;
      NothingToDo(View());
      if !hasWindow || clipboard == "" {
        return;
      }
      PasteStep(View(), clipboard);
      var pasteLines := PasteLines(clipboard);
      var lines := LogicalLines();
      var prevRaw := Join(lines, LF);
      var prev := cursor;
      if hasSelection {
        lines := DeleteSelection(lines);
      }
      var at := cursor;
      PutLines(prevRaw, prev, lines, at, pasteLines);
      EnsureCursorVisible();
    }

    /** The pasted text, cut into lines. */
    static method PasteLines(clip: string) returns (r: seq<string>)
      ensures r == Lines(Normalise(clip))
    {
      var text := ReplaceAll(clip, CRLF, LF);
      text := ReplaceAll(text, "\r", LF);
      r := Split(text, LF);
    }

    // ---- keys, focus and mouse ----

    method KeyDown(shift: bool)
      requires Valid()
      modifies `shiftHeld
      ensures Valid() && View() == if shift then E.Step(old(View()), E.ShiftDown) else old(View())
    {
      hide E.Inv, E.Bounds, E.ShiftOk, Normalise, Lines, Wrap, ColouredBy;
      FlagStep(View(), E.ShiftDown);
      if shift {
        shiftHeld := true;
      }
    }

    method KeyUp(shift: bool)
      requires Valid()
      modifies `shiftHeld, `shiftSelecting
      ensures Valid() && View() == if shift then E.Step(old(View()), E.ShiftUp) else old(View())
    {
      hide E.Inv, E.Bounds, E.ShiftOk, Normalise, Lines, Wrap, ColouredBy;
      FlagStep(View(), E.ShiftUp);
      if shift {
        shiftHeld := false;
        shiftSelecting := false;
      }
    }

    /** Losing focus keeps the invariant if and only if no shift selection is left behind by a drag. */
    method FocusLost()
      requires Valid()
      modifies `shiftHeld, `shiftSelecting
      ensures CacheOk() && View() == E.Step(old(View()), E.FocusLost)
      ensures Valid() <==> !old(dragging && shiftSelecting)
    {
      hide E.Inv, E.Bounds, E.ShiftOk, Normalise, Lines, Wrap, ColouredBy;
      E.FocusLostKeepsIff(View());
      shiftHeld := false;
      if !dragging {
        shiftSelecting := false;
      }
    }

    ghost function Point(row: int, col: int): Pos
      reads this
    {
      var (l, c) := PointToLogical(Wrap(TextLines(), Width(charsPerLine)), scrollOffset + row, col);
      Pos(l, c)
    }

    /** A point where the caret is shown is the place of the caret. */
    lemma CaretIsUnderPoint()
      requires Valid()
      ensures var (v, c) := Locate(Wrap(TextLines(), Width(charsPerLine)), cursor.line, cursor.col);
        Point(v - scrollOffset, c) == cursor
    {
      hide E.ShiftOk, Normalise, Wrap;
      E.InvBounds(View());
      LocateCorrect(TextLines(), Width(charsPerLine), cursor.line, cursor.col);
    }

    /** posFromPoint, with the row and column the pixel position falls on. */
    method PosFromPoint(row: int, col: int) returns (p: Pos)
      requires Valid()
      modifies `visualCache, `visualTokens, `visualCacheRaw, `visualCacheWidth, `visualCacheValid
      ensures Valid() && View() == old(View()) && p == old(Point(row, col)) && InText(View().text, p)
    {
      hide E.Inv, E.Bounds, E.ShiftOk, InText, Normalise, Lines, Wrap, ColouredBy;
      PointStep(View(), Width(charsPerLine), scrollOffset + row, col);
      var visual := Visual();
      var vLineIdx := scrollOffset + row;
      if vLineIdx < 0 {
        vLineIdx := 0;
      }
      if vLineIdx >= |visual| {
        vLineIdx := |visual| - 1;
      }
      if vLineIdx < 0 {
        return Pos(0, 0);
      }
      var vl := visual[vLineIdx];
      var vCol := col;
      if vCol < 0 {
        vCol := 0;
      }
      if vCol > |vl.raw| {
        vCol := |vl.raw|;
      }
      return Pos(vl.line, vl.off + vCol);
    }

    method MouseDown(row: int, col: int)
      requires Valid()
      modifies this
      ensures Valid() && E.Ok(old(View()), E.Press(old(Point(row, col))))
      ensures View() == E.Step(old(View()), E.Press(old(Point(row, col))))
    {
      hide E.Inv, E.Bounds, E.ShiftOk, Normalise, Lines, Wrap, ColouredBy;
      var p := PosFromPoint(row, col);
      FlagStep(View(), E.Press(p));
      SelectBetween(p, p);
      MoveCursor(p);
      CancelShift();
      dragging := false;
    }

    /** A drag keeps the bounds if and only if the anchor of its press is still in the text. */
    method Dragged(row: int, col: int)
      requires Valid()
      modifies this
      ensures CacheOk() && E.Ok(old(View()), E.DragTo(old(Point(row, col))))
      ensures View() == E.Step(old(View()), E.DragTo(old(Point(row, col))))
      ensures Valid() <==> InText(View().text, selAnchor)
    {
      hide E.Inv, E.Bounds, E.ShiftOk, Normalise, Lines, Wrap, ColouredBy, InText;
      var p := PosFromPoint(row, col);
      E.InvBounds(View());
      E.DragInBoundsIff(View(), p);
      dragging := true;
      SelectBetween(selAnchor, p);
      MoveCursor(p);
      hasSelection := selAnchor != p;
    }

    /** MouseUp and the end of a drag. */
    method DragEnd()
      requires Valid()
      modifies `dragging
      ensures Valid() && View() == E.Step(old(View()), E.DragEnd)
    {
      hide E.Inv, E.Bounds, E.ShiftOk, Normalise, Lines, Wrap, ColouredBy;
      FlagStep(View(), E.DragEnd);
      dragging := false;
    }

    static method WordAt(runes: string, isWord: char -> bool, at: nat) returns (wordStart: nat, wordEnd: nat)
      requires at < |runes|
      ensures IsWordAt(runes, isWord, at, wordStart, wordEnd)
    {
      wordStart := at;
      while wordStart > 0 && isWord(runes[wordStart - 1])
        invariant wordStart <= at
        invariant forall i :: wordStart <= i < at ==> isWord(runes[i])
      {
        wordStart := wordStart - 1;
      }
      wordEnd := at;
      while wordEnd < |runes| && isWord(runes[wordEnd])
        invariant at <= wordEnd <= |runes|
        invariant forall i :: wordStart <= i < wordEnd ==> isWord(runes[i])
      {
        wordEnd := wordEnd + 1;
      }
    }

    /** A double tap selects the word under it; on an empty line it does nothing. */
    method DoubleTapped(row: int, col: int, isWord: char -> bool) returns (ghost from: nat, ghost to: nat)
      requires Valid()
      modifies this
      ensures Valid() && WordTapped(old(View()), View(), old(Point(row, col)), isWord, from, to)
    {
      hide E.Inv, E.Bounds, E.ShiftOk, E.Step, Normalise, Lines, Wrap, ColouredBy, IsWordAt;
      from, to := 0, 0;
      var p := PosFromPoint(row, col);
      E.InvBounds(View());
      var lines := LogicalLines();
      var runes := lines[p.line];
      if |runes| == 0 {
        return;
      }
      var c := p.col;
      if c >= |runes| {
        c := |runes| - 1;
      }
      var wordStart, wordEnd := WordAt(runes, isWord, c);
      from, to := wordStart, wordEnd;
      TapSelects(View(), p, isWord, from, to);
      SelectBetween(Pos(p.line, wordStart), Pos(p.line, wordEnd));
      MoveCursor(Pos(p.line, wordEnd));
      hasSelection := wordStart != wordEnd;
    }
  }
}

/** The text of the editor as one flat string, its lines, and the two ways of naming a place in it. */
module EditorText {
  import opened Strings

  datatype Pos = Pos(line: nat, col: nat)

  /** splitRaw's line-ending normalisation. */
  function Normalise(raw: string): string {
    ReplaceAll(ReplaceAll(raw, CRLF, LF), "\r", LF)
  }

  function Lines(text: string): seq<string> {
    Split(text, LF)
  }

  function Unlines(lines: seq<string>): string {
    Join(lines, LF)
  }

  /** What the editor's line lists look like: at least one line, no line breaks inside. */
  predicate Plain(s: string) { '\n' !in s && '\r' !in s }

  ghost predicate PlainLines(lines: seq<string>) {
    lines != [] && Free(lines, '\n') && Free(lines, '\r')
  }

  predicate InBounds(lines: seq<string>, p: Pos) {
    p.line < |lines| && p.col <= |lines[p.line]|
  }

  predicate InText(text: string, p: Pos) {
    InBounds(Lines(text), p)
  }

  /** The lines up to `p` and the lines from `p` on. */
  function Before(lines: seq<string>, p: Pos): (r: seq<string>)
    requires InBounds(lines, p)
    ensures r != []
  {
    lines[..p.line] + [lines[p.line][..p.col]]
  }

  function After(lines: seq<string>, p: Pos): (r: seq<string>)
    requires InBounds(lines, p)
    ensures r != []
  {
    [lines[p.line][p.col..]] + lines[p.line + 1..]
  }

  /** How far into the flat text `p` lies. */
  function Offset(lines: seq<string>, p: Pos): nat
    requires InBounds(lines, p)
  {
    |Unlines(Before(lines, p))|
  }

  /** The line and column of a place in the flat text: count the line breaks before it. */
  function PosOf(text: string, off: nat): Pos
    requires off <= |text|
  {
    var b := Lines(text[..off]);
    Pos(|b| - 1, |b[|b| - 1]|)
  }

  function OffsetOf(text: string, p: Pos): nat
    requires InText(text, p)
  {
    Offset(Lines(text), p)
  }

  // ---- normalisation ----

  lemma NormalisePlain(raw: string)
    requires '\r' !in raw
    ensures Normalise(raw) == raw
  {
    forall i: nat ensures !At(raw, CRLF, i) && !At(raw, "\r", i) {
      if i < |raw| {
        assert raw[i] != '\r';
        assert i + 2 <= |raw| ==> raw[i..i + 2][0] == raw[i];
        assert raw[i..i + 1][0] == raw[i];
      }
    }
  }

  lemma NormaliseNoCr(raw: string)
    ensures '\r' !in Normalise(raw)
  {
    var t := ReplaceAll(raw, CRLF, LF);
    SplitFree(t, "\r");
    JoinFree(Split(t, "\r"), LF, '\r');
  }

  lemma LinesPlain(text: string)
    requires '\r' !in text
    ensures PlainLines(Lines(text)) && Unlines(Lines(text)) == text
  {
    SplitFree(text, LF);
    SplitKeepsFree(text, LF, '\r');
    JoinSplit(text, LF);
  }

  lemma UnlinesPlain(lines: seq<string>)
    requires PlainLines(lines)
    ensures '\r' !in Unlines(lines) && Lines(Unlines(lines)) == lines
  {
    JoinFree(lines, LF, '\r');
    SplitJoin(lines, LF);
  }

  lemma TwoLines(a: string, b: string)
    ensures Unlines([a, b]) == a + "\n" + b
  {
    assert Join([b], LF) == b;
    assert [a, b][1..] == [b];
  }

  // ---- the two maps invert each other ----

  lemma Cut(lines: seq<string>, p: Pos)
    requires PlainLines(lines) && InBounds(lines, p)
    ensures Glue(Before(lines, p), After(lines, p)) == lines
    ensures PlainLines(Before(lines, p)) && PlainLines(After(lines, p))
    ensures Unlines(lines) == Unlines(Before(lines, p)) + Unlines(After(lines, p))
  {
    var b, a := Before(lines, p), After(lines, p);
    assert lines[p.line] == lines[p.line][..p.col] + lines[p.line][p.col..];
    assert Glue(b, a) == lines;
    JoinGlue(b, a, LF);
  }

  lemma CutText(lines: seq<string>, p: Pos)
    requires PlainLines(lines) && InBounds(lines, p)
    ensures Offset(lines, p) <= |Unlines(lines)|
    ensures Unlines(lines)[..Offset(lines, p)] == Unlines(Before(lines, p))
    ensures Unlines(lines)[Offset(lines, p)..] == Unlines(After(lines, p))
    ensures PosOf(Unlines(lines), Offset(lines, p)) == p
  {
    Cut(lines, p);
    UnlinesPlain(Before(lines, p));
  }

  /** The lines before the seam of two texts are those of the first. */
  lemma BeforeSeam(la: seq<string>, lb: seq<string>)
    requires la != [] && lb != []
    ensures var p := Pos(|la| - 1, |la[|la| - 1]|); InBounds(Glue(la, lb), p) && Before(Glue(la, lb), p) == la
  {
    var g, p := Glue(la, lb), Pos(|la| - 1, |la[|la| - 1]|);
    assert g[p.line] == la[p.line] + lb[0];
    assert g[p.line][..p.col] == la[p.line];
    assert g[..p.line] == la[..p.line];
  }

  lemma PosOfInText(text: string, off: nat)
    requires '\r' !in text && off <= |text|
    ensures InText(text, PosOf(text, off)) && OffsetOf(text, PosOf(text, off)) == off
  {
    hide Split, Join, Glue, Before;
    var a, b := text[..off], text[off..];
    assert text == a + b;
    SplitConcat(a, b, LF);
    BeforeSeam(Lines(a), Lines(b));
    JoinSplit(a, LF);
  }

  // ---- the one edit behind all edits ----

  /** The pieces `m` inserted at a place with `b` before it and `a` after it. */
  function Inserted(b: seq<string>, m: seq<string>, a: seq<string>): seq<string>
    requires b != [] && m != [] && a != []
  {
    Glue(Glue(b, m), a)
  }

  /** Lines `s` to `e` of `lines` replaced by the pieces `m`. */
  function LineSplice(lines: seq<string>, s: Pos, e: Pos, m: seq<string>): seq<string>
    requires InBounds(lines, s) && InBounds(lines, e) && m != []
  {
    Inserted(Before(lines, s), m, After(lines, e))
  }

  /** Where the insertion ends. */
  function EndOfInsert(s: Pos, m: seq<string>): Pos
    requires m != []
  {
    Pos(s.line + |m| - 1, (if |m| == 1 then s.col else 0) + |m[|m| - 1]|)
  }

  function Splice(text: string, a: nat, b: nat, ins: string): string
    requires a <= b <= |text|
  {
    text[..a] + ins + text[b..]
  }

  /** A splice of lines is a splice of the flat text. */
  lemma SpliceText(lines: seq<string>, s: Pos, e: Pos, m: seq<string>)
    requires PlainLines(lines) && m != [] && InBounds(lines, s) && InBounds(lines, e)
      && Offset(lines, s) <= Offset(lines, e)
    ensures Offset(lines, e) <= |Unlines(lines)|
    ensures Unlines(LineSplice(lines, s, e, m))
      == Splice(Unlines(lines), Offset(lines, s), Offset(lines, e), Unlines(m))
  {
    var b, a := Before(lines, s), After(lines, e);
    CutText(lines, s);
    CutText(lines, e);
    JoinGlue(b, m, LF);
    JoinGlue(Glue(b, m), a, LF);
  }

  /** The result is plain lines again, and EndOfInsert is the end of what was put in. */
  lemma SpliceIsSplice(lines: seq<string>, s: Pos, e: Pos, m: seq<string>)
    requires PlainLines(lines) && PlainLines(m) && InBounds(lines, s) && InBounds(lines, e)
    requires Offset(lines, s) <= Offset(lines, e)
    ensures Offset(lines, e) <= |Unlines(lines)|
    ensures PlainLines(LineSplice(lines, s, e, m))
    ensures Unlines(LineSplice(lines, s, e, m))
      == Splice(Unlines(lines), Offset(lines, s), Offset(lines, e), Unlines(m))
    ensures PosOf(Unlines(LineSplice(lines, s, e, m)), Offset(lines, s) + |Unlines(m)|) == EndOfInsert(s, m)
  {
    SpliceText(lines, s, e, m);
    var b, a := Before(lines, s), After(lines, e);
    Cut(lines, s);
    Cut(lines, e);
    var bm := Glue(b, m);
    GlueFree(b, m, '\n');
    GlueFree(b, m, '\r');
    GlueFree(bm, a, '\n');
    GlueFree(bm, a, '\r');
    JoinGlue(b, m, LF);
    JoinGlue(bm, a, LF);
    var text := Unlines(Inserted(b, m, a));
    assert text[..|Unlines(bm)|] == Unlines(bm);
    UnlinesPlain(bm);
  }

  /** Deleting first and inserting afterwards is one splice. */
  lemma DeleteThenInsert(lines: seq<string>, s: Pos, e: Pos, m: seq<string>)
    requires PlainLines(lines) && InBounds(lines, s) && InBounds(lines, e) && m != []
    ensures var cut := LineSplice(lines, s, e, [""]);
      InBounds(cut, s) && LineSplice(cut, s, s, m) == LineSplice(lines, s, e, m)
  {
    var cut := LineSplice(lines, s, e, [""]);
    var b, a := Before(lines, s), After(lines, e);
    assert cut == Glue(b, a) by {
      assert b[|b| - 1] + "" == b[|b| - 1];
    }
    assert cut[s.line] == lines[s.line][..s.col] + lines[e.line][e.col..];
    assert Before(cut, s) == b;
    assert After(cut, s) == a;
  }

  /** A place before the edit keeps its line, column and offset. */
  lemma KeptBefore(lines: seq<string>, s: Pos, e: Pos, m: seq<string>, q: Pos)
    requires PlainLines(lines) && PlainLines(m) && InBounds(lines, s) && InBounds(lines, e) && InBounds(lines, q)
    requires Offset(lines, q) <= Offset(lines, s) <= Offset(lines, e)
    ensures var r := LineSplice(lines, s, e, m); InBounds(r, q) && Offset(r, q) == Offset(lines, q)
  {
    hide Split, Join, Before, After, LineSplice, Offset;
    var r := LineSplice(lines, s, e, m);
    SpliceIsSplice(lines, s, e, m);
    CutText(lines, s);
    CutText(lines, q);
    var t, n, off := Unlines(lines), Unlines(r), Offset(lines, q);
    assert n[..off] == t[..off];
    UnlinesPlain(r);
    PosOfInText(n, off);
  }

  /** Offsets order positions as normaliseSelection does: by line, then column. */
  predicate Leq(a: Pos, b: Pos) {
    a.line < b.line || (a.line == b.line && a.col <= b.col)
  }

  lemma OffsetMonotone(lines: seq<string>, a: Pos, b: Pos)
    requires PlainLines(lines) && InBounds(lines, a) && InBounds(lines, b)
    ensures Leq(a, b) <==> Offset(lines, a) <= Offset(lines, b)
  {
    if Leq(a, b) {
      LeqOffset(lines, a, b);
    } else {
      LeqOffset(lines, b, a);
      CutText(lines, a);
      CutText(lines, b);
    }
  }

  lemma LeqOffset(lines: seq<string>, a: Pos, b: Pos)
    requires PlainLines(lines) && InBounds(lines, a) && InBounds(lines, b) && Leq(a, b)
    ensures Offset(lines, a) <= Offset(lines, b)
  {
    var big := Before(lines, b);
    assert InBounds(big, a);
    Cut(lines, b);
    CutText(big, a);
    assert big[a.line][..a.col] == lines[a.line][..a.col];
    assert Before(big, a) == Before(lines, a);
  }
}

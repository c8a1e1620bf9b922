/** Soft wrapping of logical lines into visual lines, and the maps between logical and visual positions. The tokens
    of the visual lines are a list beside them. */
module SoftWrap {
  import opened Lists
  import ChunkColours
  import Tokeniser
  import ParseText

  /** One visual line: the text of a chunk, the logical line it is part of, the column it starts at. */
  datatype VLine = VLine(raw: string, line: nat, off: nat) {
    function End(): nat { off + |raw| }
  }

  /** `if charsPerLine < 10 { charsPerLine = 10 }` */
  function Width(charsPerLine: int): (w: nat)
    ensures w >= 10
  {
    if charsPerLine < 10 then 10 else charsPerLine
  }

  function ChunksFrom(s: string, line: nat, off: nat, w: nat): seq<VLine>
    requires w > 0 && off <= |s|
    decreases |s| - off
  {
    if off == |s| then []
    else
      var end := if off + w > |s| then |s| else off + w;
      [VLine(s[off..end], line, off)] + ChunksFrom(s, line, end, w)
  }

  function Chunks(s: string, line: nat, w: nat): seq<VLine>
    requires w > 0
  {
    if s == "" then [VLine("", line, 0)] else ChunksFrom(s, line, 0, w)
  }

  function WrapFrom(lines: seq<string>, i: nat, w: nat): seq<VLine>
    requires w > 0 && i <= |lines|
    decreases |lines| - i
  {
    if i == |lines| then [] else Chunks(lines[i], i, w) + WrapFrom(lines, i + 1, w)
  }

  function Wrap(lines: seq<string>, w: nat): seq<VLine>
    requires w > 0
  {
    WrapFrom(lines, 0, w)
  }

  /** One list of tokens for each visual line, those of its chunk. */
  ghost predicate ColouredBy(vs: seq<VLine>, colours: seq<seq<Tokeniser.Token>>, lines: seq<string>) {
    && |colours| == |vs|
    && forall v :: 0 <= v < |vs| ==> colours[v] == ChunkColours.ChunkTokens(lines, vs[v].line, vs[v].off, vs[v].raw)
  }

  /** The index of the first empty line that is not the first line, or -1. */
  method BodyStartLine(lines: seq<string>) returns (k: int)
    ensures forall line: nat :: ChunkColours.InBody(lines, line) <==> 0 <= k < line
  {
    for i := 0 to |lines|
      invariant forall j :: 0 < j < i ==> lines[j] != ""
    {
      if lines[i] == "" && i > 0 {
        return i;
      }
    }
    k := -1;
  }

  /** buildVisualLines. */
  method BuildVisualLines(lines: seq<string>, charsPerLine: int)
    returns (result: seq<VLine>, colours: seq<seq<Tokeniser.Token>>)
    ensures result == Wrap(lines, Width(charsPerLine))
    ensures forall v :: 0 <= v < |result| ==> |result[v].raw| <= 10 || |result[v].raw| <= charsPerLine
    ensures ColouredBy(result, colours, lines)
  {
    WrapFits(lines, Width(charsPerLine));
    hide ChunkColours.ChunkTokens, ChunkColours.InBody, ColouredBy, ChunksFrom, WrapFrom;
    var w := if charsPerLine < 10 then 10 else charsPerLine;
    var bodyStartLine := BodyStartLine(lines);
    var contentType := ParseText.PlainText;
    if bodyStartLine >= 0 {
      contentType := ParseText.DetectContentType(lines);
    }
    result, colours := [], [];
    NothingColoured(lines, w);
    for logIdx := 0 to |lines|
      invariant result + WrapFrom(lines, logIdx, w) == Wrap(lines, w)
      invariant ColouredBy(result, colours, lines)
    {
      WrapNext(result, lines, logIdx, w);
      var inBody := bodyStartLine >= 0 && logIdx > bodyStartLine;
      var chunks, more;
      if |lines[logIdx]| == 0 {
        var tokens := Tokens(lines, logIdx, 0, "", inBody, contentType);
        chunks, more := [VLine("", logIdx, 0)], [tokens];
        OneColoured(chunks[0], tokens, lines);
      } else {
        chunks, more := WrapLine(lines, logIdx, w, inBody, contentType);
      }
      ColouredConcat(result, colours, chunks, more, lines);
      result, colours := result + chunks, colours + more;
    }
  }

  method Tokens(lines: seq<string>, logIdx: nat, colOffset: nat, chunk: string, inBody: bool, c: ParseText.Content)
    returns (tokens: seq<Tokeniser.Token>)
    requires inBody <==> ChunkColours.InBody(lines, logIdx)
    requires inBody ==> c == ParseText.ContentFrom(lines, 0)
    ensures tokens == ChunkColours.ChunkTokens(lines, logIdx, colOffset, chunk)
  {
    tokens := ParseText.TokeniseLine(chunk, inBody, logIdx == 0 && colOffset == 0, c);
  }

  /** The inner loop of buildVisualLines. */
  method WrapLine(lines: seq<string>, logIdx: nat, w: nat, inBody: bool, contentType: ParseText.Content)
    returns (result: seq<VLine>, colours: seq<seq<Tokeniser.Token>>)
    requires w > 0 && logIdx < |lines| && |lines[logIdx]| > 0
    requires inBody <==> ChunkColours.InBody(lines, logIdx)
    requires inBody ==> contentType == ParseText.ContentFrom(lines, 0)
    ensures result == Chunks(lines[logIdx], logIdx, w) && ColouredBy(result, colours, lines)
  {
    hide ChunkColours.ChunkTokens, ChunkColours.InBody, ColouredBy;
    NothingColoured(lines, w);
    var runes := lines[logIdx];
    result, colours := [], [];
    var colOffset := 0;
    while colOffset < |runes|
      invariant colOffset <= |runes|
      invariant result + ChunksFrom(runes, logIdx, colOffset, w) == Chunks(runes, logIdx, w)
      invariant ColouredBy(result, colours, lines)
    {
      var end := colOffset + w;
      if end > |runes| {
        end := |runes|;
      }
      var chunk := runes[colOffset..end];
      Regroup(result, [VLine(chunk, logIdx, colOffset)], ChunksFrom(runes, logIdx, end, w));
      var tokens := Tokens(lines, logIdx, colOffset, chunk, inBody, contentType);
      OneColoured(VLine(chunk, logIdx, colOffset), tokens, lines);
      ColouredConcat(result, colours, [VLine(chunk, logIdx, colOffset)], [tokens], lines);
      result, colours := result + [VLine(chunk, logIdx, colOffset)], colours + [tokens];
      colOffset := end;
    }
  }

  lemma NothingColoured(lines: seq<string>, w: nat)
    requires w > 0
    ensures ColouredBy([], [], lines) && WrapFrom(lines, |lines|, w) == []
  {
  }

  lemma OneColoured(v: VLine, tokens: seq<Tokeniser.Token>, lines: seq<string>)
    requires tokens == ChunkColours.ChunkTokens(lines, v.line, v.off, v.raw)
    ensures ColouredBy([v], [tokens], lines)
  {
  }

  lemma ColouredConcat(vs: seq<VLine>, colours: seq<seq<Tokeniser.Token>>,
    more: seq<VLine>, moreColours: seq<seq<Tokeniser.Token>>, lines: seq<string>)
    requires ColouredBy(vs, colours, lines) && ColouredBy(more, moreColours, lines)
    ensures ColouredBy(vs + more, colours + moreColours, lines)
  {
    hide ChunkColours.ChunkTokens;
  }

  lemma WrapNext(result: seq<VLine>, lines: seq<string>, i: nat, w: nat)
    requires w > 0 && i < |lines|
    ensures result + WrapFrom(lines, i, w) == result + Chunks(lines[i], i, w) + WrapFrom(lines, i + 1, w)
  {
    Regroup(result, Chunks(lines[i], i, w), WrapFrom(lines, i + 1, w));
  }

  // ---- the wrap is a partition ----

  ghost predicate IsChunk(v: VLine, lines: seq<string>, w: nat) {
    && v.line < |lines|
    && v.End() <= |lines[v.line]| && v.raw == lines[v.line][v.off..v.End()]
    && |v.raw| <= w && (v.raw == "" ==> lines[v.line] == "")
  }

  /** `b` follows `a` directly: the next chunk of the same line, or the start of the next line. */
  ghost predicate Follows(a: VLine, b: VLine, lines: seq<string>, w: nat)
    requires a.line < |lines|
  {
    if b.line == a.line then b.off == a.End() && |a.raw| == w
    else b.line == a.line + 1 && b.off == 0 && a.End() == |lines[a.line]|
  }

  ghost predicate Chain(vs: seq<VLine>, lines: seq<string>, w: nat) {
    && (forall v :: 0 <= v < |vs| ==> IsChunk(vs[v], lines, w))
    && (forall v :: 0 < v < |vs| ==> Follows(vs[v - 1], vs[v], lines, w))
  }

  /** Contiguous chunks from (line, off) to the end of line `last`. */
  ghost predicate Covers(vs: seq<VLine>, lines: seq<string>, w: nat, line: nat, off: nat, last: nat)
    requires last < |lines|
  {
    && vs != [] && Chain(vs, lines, w)
    && vs[0].line == line && vs[0].off == off
    && vs[|vs| - 1].line == last && vs[|vs| - 1].End() == |lines[last]|
  }

  ghost predicate Partition(vs: seq<VLine>, lines: seq<string>, w: nat) {
    lines != [] && Covers(vs, lines, w, 0, 0, |lines| - 1)
  }

  lemma ChainConcat(a: seq<VLine>, b: seq<VLine>, lines: seq<string>, w: nat)
    requires Chain(a, lines, w) && Chain(b, lines, w) && a != [] && b != []
    requires Follows(a[|a| - 1], b[0], lines, w)
    ensures Chain(a + b, lines, w)
  {
    var vs := a + b;
    forall v | 0 < v < |vs| ensures Follows(vs[v - 1], vs[v], lines, w) {
      if v > |a| {
        assert Follows(b[v - 1 - |a|], b[v - |a|], lines, w);
      }
    }
  }

  lemma {:induction false} ChunksCover(lines: seq<string>, i: nat, off: nat, w: nat)
    requires w > 0 && i < |lines| && off < |lines[i]|
    ensures Covers(ChunksFrom(lines[i], i, off, w), lines, w, i, off, i)
    decreases |lines[i]| - off
  {
    var s := lines[i];
    var end := if off + w > |s| then |s| else off + w;
    var c := VLine(s[off..end], i, off);
    var rest := ChunksFrom(s, i, end, w);
    assert Chain([c], lines, w);
    if end < |s| {
      ChunksCover(lines, i, end, w);
      ChainConcat([c], rest, lines, w);
    }
  }

  lemma {:induction false} WrapCovers(lines: seq<string>, i: nat, w: nat)
    requires w > 0 && i < |lines|
    ensures Covers(WrapFrom(lines, i, w), lines, w, i, 0, |lines| - 1)
    decreases |lines| - i
  {
    var head := Chunks(lines[i], i, w);
    if lines[i] != "" {
      ChunksCover(lines, i, 0, w);
    }
    if i + 1 < |lines| {
      WrapCovers(lines, i + 1, w);
      ChainConcat(head, WrapFrom(lines, i + 1, w), lines, w);
    } else {
      assert WrapFrom(lines, i, w) == head;
    }
  }

  lemma WrapPartition(lines: seq<string>, w: nat)
    requires w > 0 && lines != []
    ensures Partition(Wrap(lines, w), lines, w)
  {
    WrapCovers(lines, 0, w);
  }

  lemma WrapFits(lines: seq<string>, w: nat)
    requires w > 0
    ensures forall v :: 0 <= v < |Wrap(lines, w)| ==> |Wrap(lines, w)[v].raw| <= w
  {
    if lines != [] {
      WrapPartition(lines, w);
      assert forall v :: 0 <= v < |Wrap(lines, w)| ==> IsChunk(Wrap(lines, w)[v], lines, w);
    }
  }

  /** The text of all chunks of one line, from visual line `k` on. */
  function TextOf(vs: seq<VLine>, k: nat, line: nat): string
    requires k <= |vs|
    decreases |vs| - k
  {
    if k == |vs| then "" else (if vs[k].line == line then vs[k].raw else "") + TextOf(vs, k + 1, line)
  }

  lemma {:induction false} TextFrom(vs: seq<VLine>, k: nat, lines: seq<string>, w: nat, line: nat)
    requires Partition(vs, lines, w) && k < |vs| && line < |lines|
    ensures TextOf(vs, k, line) ==
            if vs[k].line > line then "" else if vs[k].line == line then lines[line][vs[k].off..] else lines[line]
    decreases |vs| - k
  {
    assert IsChunk(vs[k], lines, w);
    if vs[k].line == line {
      assert lines[line][vs[k].off..] == vs[k].raw + lines[line][vs[k].End()..];
    }
    if k + 1 < |vs| {
      assert Follows(vs[k], vs[k + 1], lines, w);
      TextFrom(vs, k + 1, lines, w, line);
    }
  }

  /** Wrapping loses nothing: the chunks of a line concatenate to it. */
  lemma WrapLosesNothing(lines: seq<string>, w: nat, line: nat)
    requires w > 0 && line < |lines|
    ensures TextOf(Wrap(lines, w), 0, line) == lines[line]
  {
    WrapPartition(lines, w);
    TextFrom(Wrap(lines, w), 0, lines, w, line);
  }

  // ---- logical to visual ----

  predicate LastChunk(vs: seq<VLine>, v: nat)
    requires v < |vs|
  {
    v + 1 >= |vs| || vs[v + 1].line != vs[v].line
  }

  /** The scan of logicalToVisual from visual line `v` on; `last` is the last matching line seen, or -1. */
  function LocateFrom(vs: seq<VLine>, line: int, col: int, v: nat, last: int): (int, int)
    requires v <= |vs| && last < |vs|
    decreases |vs| - v
  {
    if v == |vs| then
      if last >= 0 then (last, |vs[last].raw|) else (0, 0)
    else if vs[v].line != line then LocateFrom(vs, line, col, v + 1, last)
    else if vs[v].off <= col < vs[v].End() then (v, col - vs[v].off)
    else if LastChunk(vs, v) && col >= vs[v].End() then (v, |vs[v].raw|)
    else LocateFrom(vs, line, col, v + 1, v)
  }

  function Locate(vs: seq<VLine>, line: int, col: int): (int, int) {
    LocateFrom(vs, line, col, 0, -1)
  }

  method LogicalToVisual(vs: seq<VLine>, logicalLine: int, logicalCol: int) returns (v: int, c: int)
    ensures (v, c) == Locate(vs, logicalLine, logicalCol)
  {
    var lastMatchV := -1;
    for i := 0 to |vs|
      invariant -1 <= lastMatchV < |vs|
      invariant Locate(vs, logicalLine, logicalCol) == LocateFrom(vs, logicalLine, logicalCol, i, lastMatchV)
    {
      var vl := vs[i];
      if vl.line != logicalLine {
        continue;
      }
      var chunkLen := |vl.raw|;
      var chunkEnd := vl.off + chunkLen;
      var isLastChunk := i + 1 >= |vs| || vs[i + 1].line != logicalLine;
      if logicalCol >= vl.off && logicalCol < chunkEnd {
        return i, logicalCol - vl.off;
      }
      if isLastChunk && logicalCol >= chunkEnd {
        return i, chunkLen;
      }
      lastMatchV := i;
    }
    if lastMatchV >= 0 {
      return lastMatchV, |vs[lastMatchV].raw|;
    }
    return 0, 0;
  }

  /** Visual line `v` shows column `col` of `line`; a chunk's end belongs to it only if no chunk of the line follows. */
  ghost predicate Shows(vs: seq<VLine>, v: nat, line: nat, col: nat)
    requires v < |vs|
  {
    vs[v].line == line && vs[v].off <= col && (col < vs[v].End() || (LastChunk(vs, v) && col == vs[v].End()))
  }

  lemma {:induction false} Ordered(vs: seq<VLine>, lines: seq<string>, w: nat, i: nat, j: nat)
    requires Partition(vs, lines, w) && i < j < |vs|
    ensures vs[i].line < vs[j].line || (vs[i].line == vs[j].line && vs[i].End() <= vs[j].off && !LastChunk(vs, i))
    decreases j
  {
    assert Follows(vs[j - 1], vs[j], lines, w);
    if i < j - 1 {
      Ordered(vs, lines, w, i, j - 1);
    }
  }

  lemma {:induction false} LocateFinds(vs: seq<VLine>, lines: seq<string>, w: nat, v: nat, col: nat, k: nat, last: int)
    requires Partition(vs, lines, w) && k <= v < |vs| && last < |vs| && Shows(vs, v, vs[v].line, col)
    ensures LocateFrom(vs, vs[v].line, col, k, last) == (v, col - vs[v].off)
    decreases v - k
  {
    if k < v {
      Ordered(vs, lines, w, k, v);
      LocateFinds(vs, lines, w, v, col, k + 1, if vs[k].line == vs[v].line then k else last);
    }
  }

  lemma ShownSomewhere(vs: seq<VLine>, lines: seq<string>, w: nat, line: nat, col: nat) returns (v: nat)
    requires Partition(vs, lines, w) && line < |lines| && col <= |lines[line]|
    ensures v < |vs| && Shows(vs, v, line, col)
  {
    v := 0;
    while v + 1 < |vs| && (vs[v + 1].line < line || (vs[v + 1].line == line && vs[v + 1].off <= col))
      invariant v < |vs| && (vs[v].line < line || (vs[v].line == line && vs[v].off <= col))
    {
      v := v + 1;
    }
    if v + 1 < |vs| {
      assert Follows(vs[v], vs[v + 1], lines, w);
    }
  }

  /** logicalToVisual lands in the chunk that shows the position, at the column the chunk offset leaves. */
  lemma LocateCorrect(lines: seq<string>, w: nat, line: nat, col: nat)
    requires w > 0 && line < |lines| && col <= |lines[line]|
    ensures var vs := Wrap(lines, w);
      var (v, c) := Locate(vs, line, col);
      && 0 <= v < |vs| && vs[v].line == line && 0 <= c <= |vs[v].raw| && vs[v].off + c == col
      && (c < |vs[v].raw| || LastChunk(vs, v))
  {
    var vs := Wrap(lines, w);
    WrapPartition(lines, w);
    var v := ShownSomewhere(vs, lines, w, line, col);
    LocateFinds(vs, lines, w, v, col, 0, -1);
  }

  // ---- visual to logical ----

  function Clamp(x: int, hi: nat): nat {
    if x < 0 then 0 else if x > hi then hi else x
  }

  /** posFromPoint: the logical position of a visual row and column, both clamped. */
  function PointToLogical(vs: seq<VLine>, row: int, col: int): (nat, nat) {
    if vs == [] then (0, 0)
    else
      var vl := vs[Clamp(row, |vs| - 1)];
      (vl.line, vl.off + Clamp(col, |vl.raw|))
  }

  lemma PointInBounds(lines: seq<string>, w: nat, row: int, col: int)
    requires w > 0 && lines != []
    ensures var (l, c) := PointToLogical(Wrap(lines, w), row, col); l < |lines| && c <= |lines[l]|
  {
    WrapPartition(lines, w);
  }

  /** A point beside the text gives the nearest place: above and below the first and last visual line, left and
      right of a line its two ends. */
  lemma PointBeside(lines: seq<string>, w: nat, row: int, col: int)
    requires w > 0 && lines != []
    ensures var vs := Wrap(lines, w);
      var v := if row < 0 then 0 else if row >= |vs| then |vs| - 1 else row;
      && vs != [] && 0 <= v < |vs|
      && PointToLogical(vs, row, col) == PointToLogical(vs, v, col)
      && PointToLogical(vs, row, col).0 == vs[v].line
      && PointToLogical(vs, row, col).1 - vs[v].off ==
           if col < 0 then 0 else if col > |vs[v].raw| then |vs[v].raw| else col
  {
    WrapPartition(lines, w);
  }

  /** Out and back: every visual position returns, except that the end of a chunk with a successor
      in the same line becomes the start of that successor. */
  lemma RoundTrip(lines: seq<string>, w: nat, v: nat, c: nat)
    requires w > 0 && v < |Wrap(lines, w)| && c <= |Wrap(lines, w)[v].raw|
    ensures var vs := Wrap(lines, w);
      var (line, col) := PointToLogical(vs, v, c);
      Locate(vs, line, col) == if c < |vs[v].raw| || LastChunk(vs, v) then (v, c) else (v + 1, 0)
  {
    var vs := Wrap(lines, w);
    WrapPartition(lines, w);
    if c < |vs[v].raw| || LastChunk(vs, v) {
      LocateFinds(vs, lines, w, v, vs[v].off + c, 0, -1);
    } else {
      assert Follows(vs[v], vs[v + 1], lines, w);
      LocateFinds(vs, lines, w, v + 1, vs[v].off + c, 0, -1);
    }
  }
}

/** The tokens of the editor's visual lines. Every chunk of a wrapped line is tokenised on its own. */
module ChunkColours {
  import opened Tokeniser
  import opened ParseText
  import opened Words
  import opened Strings

  /** The line lies in the body: an empty line other than the first one comes before it. */
  predicate InBody(lines: seq<string>, line: nat) {
    exists k :: 0 < k < |lines| && k < line && lines[k] == ""
  }

  /** The tokens of the chunk `raw` of a line, which starts at column `off`. */
  function ChunkTokens(lines: seq<string>, line: nat, off: nat, raw: string): seq<Token> {
    if InBody(lines, line) then BodyTokens(raw, ContentFrom(lines, 0)) else MetaTokens(raw, line == 0 && off == 0)
  }

  /** The tokens spell the chunk, but for the start of the start line when it is taken apart at more than blanks. */
  lemma ChunkSpeltIff(lines: seq<string>, line: nat, off: nat, raw: string)
    ensures Text(ChunkTokens(lines, line, off, raw)) == raw <==>
      (line == 0 && off == 0 && TakenApart(raw) ==> SingleBlanks(raw))
  {
    hide MetaTokens, JsonTokens, ContentFrom, TakenApart, SingleBlanks, Text, Fields, Join;
    var p := Token(raw, Plain);
    TextOfThree(p, p, p);
    JsonLossless(raw);
    MetaLossless(raw);
    FieldsJoinIff(raw);
  }

  // ---- the strings of a wrapped JSON line ----

  /** The state a JSON reader is in after the first `n` characters. */
  function StateAfter(s: string, n: nat): State
    requires n <= |s|
  {
    if n == 0 then Outside
    else
      var c := s[n - 1];
      match StateAfter(s, n - 1)
      case Outside => if c == '"' then Inside else Outside
      case Inside => if c == '"' then Outside else if c == '\\' then Escape else Inside
      case Escape => Inside
  }

  lemma {:induction false} MaskResumes(s: string, n: nat)
    requires n <= |s|
    ensures Mask(s, 0, Outside)[n..] == Mask(s, n, StateAfter(s, n))
  {
    if n > 0 {
      MaskResumes(s, n - 1);
      assert Mask(s, 0, Outside)[n..] == Mask(s, 0, Outside)[n - 1..][1..];
    }
  }

  /** A reader of a part of the line sees of it what a reader of the line sees who is in the same state. */
  lemma {:induction false} MaskOfPart(s: string, i: nat, end: nat, j: nat, st: State)
    requires i + j <= end <= |s|
    ensures Mask(s[i..end], j, st) == Mask(s, i + j, st)[..end - i - j]
    decreases end - i - j
  {
    if i + j < end {
      assert s[i..end][j] == s[i + j];
      MaskOfPart(s, i, end, j + 1, Outside);
      MaskOfPart(s, i, end, j + 1, Inside);
      MaskOfPart(s, i, end, j + 1, Escape);
    }
  }

  ghost predicate AllQuotes(t: string) { forall i :: 0 <= i < |t| ==> t[i] == '"' }

  /** The state makes no difference to how `t` is read. */
  ghost predicate Blind(st: State, t: string) {
    t == "" || st == Outside || (st == Inside && AllQuotes(t)) || (st == Escape && t[0] == '"')
  }

  lemma {:induction false} InsideIff(t: string, i: nat)
    requires i <= |t|
    ensures Mask(t, i, Inside) == Mask(t, i, Outside) <==> AllQuotes(t[i..])
    decreases |t| - i
  {
    if i < |t| {
      assert t[i..][0] == t[i] && t[i..][1..] == t[i + 1..];
      InsideIff(t, i + 1);
      assert Mask(t, i, Inside)[0] && (Mask(t, i, Outside)[0] <==> t[i] == '"');
      if t[i] == '"' {
        assert Mask(t, i, Inside)[1..] == Mask(t, i + 1, Outside) && Mask(t, i, Outside)[1..] == Mask(t, i + 1, Inside);
        FirstQuote(t[i..]);
      }
    }
  }

  lemma FirstQuote(t: string)
    requires t != "" && t[0] == '"'
    ensures AllQuotes(t) <==> AllQuotes(t[1..])
  {
    assert t == [t[0]] + t[1..];
  }

  lemma BlindIff(t: string, st: State)
    ensures Mask(t, 0, st) == Mask(t, 0, Outside) <==> Blind(st, t)
  {
    assert t[0..] == t;
    InsideIff(t, 0);
    if t != "" {
      assert Mask(t, 0, Outside)[0] <==> t[0] == '"';
    }
  }

  /** Which characters of a JSON line are coloured as strings. */
  function Strung(s: string): (m: seq<bool>)
    ensures |m| == |s|
  {
    StringsAreStrings(s);
    Coloured(JsonTokens(s))
  }

  /** The strings of a JSON line are coloured in its chunk as in the line if and only if the chunk starts outside a
      string, or is one whose colours do not show the difference. */
  lemma ChunkColouredIff(s: string, off: nat, end: nat)
    requires off <= end <= |s|
    ensures Strung(s[off..end]) == Strung(s)[off..end] <==>
      Blind(StateAfter(s, off), s[off..end])
  {
    hide JsonTokens, Mask, StateAfter, Blind;
    var st := StateAfter(s, off);
    StringsAreStrings(s);
    StringsAreStrings(s[off..end]);
    MaskResumes(s, off);
    MaskOfPart(s, off, end, 0, st);
    BlindIff(s[off..end], st);
    var m := Mask(s, 0, Outside);
    assert m[off..end] == m[off..][..end - off];
  }

  /** A string longer than a line loses its colour on the next one, at any width. */
  lemma ContinuationExample(w: nat)
    requires w > 0
    ensures var s := "\"" + seq(w, _ => 'a') + "\"";
      Strung(s[w..]) != Strung(s)[w..]
  {
    hide Strung;
    var s := "\"" + seq(w, _ => 'a') + "\"";
    InsideAfter(s, w);
    ChunkColouredIff(s, w, |s|);
    assert s[w..|s|] == s[w..] && s[w..][0] == 'a';
    assert Strung(s)[w..|s|] == Strung(s)[w..];
  }

  lemma {:induction false} InsideAfter(s: string, n: nat)
    requires 0 < n <= |s| && s[0] == '"' && forall i :: 0 < i < n ==> s[i] == 'a'
    ensures StateAfter(s, n) == Inside
  {
    if n > 1 {
      InsideAfter(s, n - 1);
    } else {
      assert StateAfter(s, 0) == Outside;
    }
  }
}

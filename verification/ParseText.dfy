/** The parse of a whole HTTP text into visual lines: header, blank line, body. */
module ParseText {
  import opened Strings
  import opened Words
  import opened Tokeniser
  import opened TokenWrap
  import T = EditorText

  datatype Content = Json | Html | PlainText

  const CONTENT_TYPE := "content-type:"

  /** The content type a Content-Type line names. */
  function Named(line: string): Content {
    var lower := ToLower(line);
    if Find(lower, "json") >= 0 then Json else if Find(lower, "html") >= 0 then Html else PlainText
  }

  /** detectContentType over the lines from `i` on. */
  function ContentFrom(lines: seq<string>, i: nat): Content
    decreases |lines| - i
  {
    if i >= |lines| then PlainText
    else if Begins(lines[i], CONTENT_TYPE) then Named(lines[i])
    else if lines[i] == "" then PlainText
    else ContentFrom(lines, i + 1)
  }

  /** Line `k` is the first Content-Type line, and no empty line comes before it. */
  ghost predicate Decides(lines: seq<string>, k: nat) {
    && k < |lines| && Begins(lines[k], CONTENT_TYPE)
    && forall j :: 0 <= j < k ==> lines[j] != "" && !Begins(lines[j], CONTENT_TYPE)
  }

  /** The first Content-Type line of the header decides; without one the body is plain text. */
  method DetectContentType(lines: seq<string>) returns (c: Content)
    ensures forall k: nat :: Decides(lines, k) ==> c == Named(lines[k])
    ensures (forall k: nat :: !Decides(lines, k)) ==> c == PlainText
    ensures c == ContentFrom(lines, 0)
  {
    hide Begins, Find, ToLower;
    for i := 0 to |lines|
      invariant ContentFrom(lines, i) == ContentFrom(lines, 0)
      invariant forall j :: 0 <= j < i ==> lines[j] != "" && !Begins(lines[j], CONTENT_TYPE)
    {
      if Begins(lines[i], CONTENT_TYPE) {
        assert Decides(lines, i);
        assert forall k: nat :: Decides(lines, k) ==> k == i;
        var lower := ToLower(lines[i]);
        if Find(lower, "json") >= 0 {
          return Json;
        }
        if Find(lower, "html") >= 0 {
          return Html;
        }
        return PlainText;
      }
      if lines[i] == "" {
        return PlainText;
      }
    }
    c := PlainText;
  }

  predicate IsBlank(line: string) { TrimSpace(line) == "" }

  /** The line that ends the header: the first blank one after the start line. */
  function Separator(lines: seq<string>, i: nat): (k: nat)
    requires i <= |lines|
    ensures i <= k <= |lines|
    ensures k < |lines| ==> k > 0 && IsBlank(lines[k])
    ensures forall j :: i <= j < k && j > 0 ==> !IsBlank(lines[j])
    decreases |lines| - i
  {
    hide IsBlank;
    if i == |lines| || (i > 0 && IsBlank(lines[i])) then i else Separator(lines, i + 1)
  }

  function BodyTokens(line: string, c: Content): seq<Token> {
    if c == Json then JsonTokens(line) else [Token(line, Plain)]
  }

  /** The tokens a logical line is shown with. */
  function TokensOf(lines: seq<string>, i: nat): seq<Token>
    requires i < |lines|
  {
    var sep := Separator(lines, 0);
    if i < sep then MetaTokens(lines[i], i == 0)
    else if i == sep then [Token("", Plain)]
    else BodyTokens(lines[i], ContentFrom(lines, 0))
  }

  function Flat(groups: seq<seq<Line>>): seq<Line> {
    if groups == [] then [] else Flat(groups[..|groups| - 1]) + groups[|groups| - 1]
  }

  /** One group of visual lines for each logical line, spelling and colouring it. */
  ghost predicate Shows(groups: seq<seq<Line>>, lines: seq<string>, w: nat) {
    && |groups| <= |lines|
    && forall i :: 0 <= i < |groups| ==> Wrapped(groups[i], w) && PaintLines(groups[i]) == Paint(TokensOf(lines, i))
  }

  method TokeniseLine(line: string, inBody: bool, first: bool, c: Content) returns (tokens: seq<Token>)
    ensures tokens == if inBody then BodyTokens(line, c) else MetaTokens(line, first)
  {
    if !inBody {
      return MetaTokens(line, first);
    }
    if c == Json {
      tokens := TokeniseJSON(line);
    } else {
      tokens := [Token(line, Plain)];
    }
  }

  lemma BlankGroup(w: nat)
    ensures var g := [Line([Token("", Plain)], "")]; Wrapped(g, w) && PaintLines(g) == Paint([Token("", Plain)])
  {
    SingleLine(Line([Token("", Plain)], ""));
    SingleToken(Token("", Plain));
  }

  lemma SeparatorFrom(lines: seq<string>, i: nat)
    requires i <= |lines| && forall j :: 0 < j < i ==> !IsBlank(lines[j])
    ensures Separator(lines, 0) == Separator(lines, i)
    decreases i
  {
    if i > 0 {
      SeparatorFrom(lines, i - 1);
    }
  }

  /** What the loop adds for line `i`, and whether the body begins after it. */
  method ShowLine(lines: seq<string>, i: nat, inBody: bool, contentType: Content, charsPerLine: nat)
    returns (group: seq<Line>, bodyNow: bool)
    requires i < |lines| && charsPerLine > 0 && contentType == ContentFrom(lines, 0)
    requires inBody <==> Separator(lines, 0) < i
    requires !inBody ==> forall j :: 0 < j < i ==> !IsBlank(lines[j])
    ensures Wrapped(group, charsPerLine) && PaintLines(group) == Paint(TokensOf(lines, i))
    ensures bodyNow <==> Separator(lines, 0) <= i
    ensures !bodyNow && i > 0 ==> !IsBlank(lines[i])
  {
    hide Paint, PaintLines, Wrapped, IsBlank, MetaTokens, BodyTokens, ContentFrom, Separator;
    var rawLine := lines[i];
    if !inBody && IsBlank(rawLine) && i > 0 {
      SeparatorHere(lines, i);
      BlankGroup(charsPerLine);
      return [Line([Token("", Plain)], "")], true;
    }
    if !inBody {
      SeparatorLater(lines, i);
    }
    var tokens := TokeniseLine(rawLine, inBody, i == 0, contentType);
    group := WrapTokens(tokens, charsPerLine);
    bodyNow := inBody;
  }

  /** Every visual line belongs to one logical line, and together they spell and colour it. */
  method ParseAndWrap(s: string, charsAcross: int) returns (result: seq<Line>, ghost groups: seq<seq<Line>>)
    ensures s == "" ==> result == []
    ensures s != "" ==>
      var lines := T.Lines(T.Normalise(s));
      result == Flat(groups) && |groups| == |lines|
        && Shows(groups, lines, if charsAcross < 10 then 10 else charsAcross)
  {
    hide Paint, PaintLines, Wrapped, IsBlank, TokensOf, ContentFrom, Separator, Find, Split, Join;
    groups := [];
    if s == "" {
      return [], groups;
    }
    var text := ReplaceAll(s, CRLF, LF);
    text := ReplaceAll(text, "\r", LF);
    var lines := Split(text, LF);
    var charsPerLine := if charsAcross < 10 then 10 else charsAcross;
    var contentType := DetectContentType(lines);
    result := [];
    var inBody := false;
    for i := 0 to |lines|
      invariant |groups| == i && result == Flat(groups) && Shows(groups, lines, charsPerLine)
      invariant inBody <==> Separator(lines, 0) < i
      invariant !inBody ==> forall j :: 0 < j < i ==> !IsBlank(lines[j])
    {
      var group;
      group, inBody := ShowLine(lines, i, inBody, contentType, charsPerLine);
      result := result + group;
      FlatMore(groups, group);
      groups := groups + [group];
    }
  }

  lemma FlatMore(groups: seq<seq<Line>>, group: seq<Line>)
    ensures Flat(groups + [group]) == Flat(groups) + group
  {
    assert (groups + [group])[..|groups|] == groups;
  }

  lemma SeparatorHere(lines: seq<string>, i: nat)
    requires 0 < i < |lines| && IsBlank(lines[i]) && forall j :: 0 < j < i ==> !IsBlank(lines[j])
    ensures Separator(lines, 0) == i
  {
    SeparatorFrom(lines, i);
  }

  lemma SeparatorLater(lines: seq<string>, i: nat)
    requires i < |lines| && (i > 0 ==> !IsBlank(lines[i])) && forall j :: 0 < j < i ==> !IsBlank(lines[j])
    ensures Separator(lines, 0) > i
  {
    SeparatorFrom(lines, i);
  }

  // ---- what is shown of a text ----

  /** The text of one logical line on the screen: the line itself, but for the blank line that ends the
      header and a start line that is taken apart. */
  function ShownLine(lines: seq<string>, i: nat): string
    requires i < |lines|
  {
    if i == Separator(lines, 0) then ""
    else if i == 0 && TakenApart(lines[0]) then Join(Fields(lines[0]), " ")
    else lines[i]
  }

  lemma TokensSpell(lines: seq<string>, i: nat)
    requires i < |lines|
    ensures Text(TokensOf(lines, i)) == ShownLine(lines, i)
  {
    hide MetaTokens, JsonTokens, IsBlank, Fields, Join, ContentFrom, TakenApart, Separator, Text, StartTokens;
    var sep := Separator(lines, 0);
    SingleToken(Token("", Plain));
    SingleToken(Token(lines[i], Plain));
    MetaLossless(lines[i]);
    JsonLossless(lines[i]);
  }

  /** Reading the visual lines of one logical line gives its text back. */
  lemma GroupSpells(groups: seq<seq<Line>>, lines: seq<string>, w: nat, i: nat)
    requires Shows(groups, lines, w) && i < |groups|
    ensures Letters(PaintLines(groups[i])) == ShownLine(lines, i)
  {
    hide ShownLine, TokensOf, Text, Paint, PaintLines, Letters;
    TokensSpell(lines, i);
    LettersOfTokens(TokensOf(lines, i));
  }

  /** A logical line is shown as it is if and only if it is not a separator with blanks in it and not a start
      line that is taken apart at more than single blanks. */
  lemma ShownAsIsIff(groups: seq<seq<Line>>, lines: seq<string>, w: nat, i: nat)
    requires Shows(groups, lines, w) && i < |groups|
    ensures Letters(PaintLines(groups[i])) == lines[i] <==>
      && (i == Separator(lines, 0) ==> lines[i] == "")
      && (i == 0 && TakenApart(lines[0]) ==> SingleBlanks(lines[0]))
  {
    hide Shows, Letters, PaintLines, TakenApart, SingleBlanks, Fields, Join, IsBlank;
    assert i < |lines| by { hide *; ShownLines(groups, lines, w); }
    GroupSpells(groups, lines, w, i);
    FieldsJoinIff(lines[i]);
  }

  lemma ShownLines(groups: seq<seq<Line>>, lines: seq<string>, w: nat)
    requires Shows(groups, lines, w)
    ensures |groups| <= |lines|
  {
  }
}

/** Wrapping the tokens of a logical line into visual lines. */
module TokenWrap {
  import opened Lists
  import opened Tokeniser

  /** One visual line. */
  datatype Line = Line(tokens: seq<Token>, raw: string)

  /** The characters of some tokens, each with its colour. */
  function Paint(tokens: seq<Token>): seq<(char, Kind)> {
    if tokens == [] then []
    else PaintOne(tokens[0]) + Paint(tokens[1..])
  }

  function PaintOne(t: Token): seq<(char, Kind)> {
    seq(|t.text|, i requires 0 <= i < |t.text| => (t.text[i], t.kind))
  }

  function PaintLines(lines: seq<Line>): seq<(char, Kind)> {
    if lines == [] then [] else Paint(lines[0].tokens) + PaintLines(lines[1..])
  }

  /** A line spells its tokens, and fits unless it is one string or key that is too long by itself. */
  predicate Fits(tokens: seq<Token>, w: nat) {
    tokens != [] && (|Text(tokens)| <= w || (|tokens| == 1 && IsString(tokens[0].kind)))
  }

  predicate LineOk(l: Line, w: nat) {
    Fits(l.tokens, w) && l.raw == Text(l.tokens)
  }

  /** No line ends early: it is full, or the next one begins with a string that did not fit any more. */
  predicate Needed(len: nat, next: Token, w: nat) {
    len >= w || (IsString(next.kind) && len + |next.text| > w)
  }

  ghost predicate Wrapped(lines: seq<Line>, w: nat) {
    && (forall i :: 0 <= i < |lines| ==> LineOk(lines[i], w))
    && (forall i :: 0 < i < |lines| ==> Needed(|lines[i - 1].raw|, lines[i].tokens[0], w))
  }

  // ---- lemmas on painting ----

  lemma {:induction false} PaintConcat(a: seq<Token>, b: seq<Token>)
    ensures Paint(a + b) == Paint(a) + Paint(b)
  {
    hide PaintOne;
    if a == [] {
      assert a + b == b;
    } else {
      PaintConcat(a[1..], b);
      assert (a + b)[1..] == a[1..] + b;
      Regroup(PaintOne(a[0]), Paint(a[1..]), Paint(b));
    }
  }

  lemma {:induction false} PaintLinesConcat(a: seq<Line>, b: seq<Line>)
    ensures PaintLines(a + b) == PaintLines(a) + PaintLines(b)
  {
    hide Paint;
    if a == [] {
      assert a + b == b;
    } else {
      PaintLinesConcat(a[1..], b);
      assert (a + b)[1..] == a[1..] + b;
      Regroup(Paint(a[0].tokens), PaintLines(a[1..]), PaintLines(b));
    }
  }

  lemma SingleToken(t: Token)
    ensures Paint([t]) == PaintOne(t) && Text([t]) == t.text
  {
    assert [t][1..] == [];
    assert Paint([t]) == PaintOne(t) + [] && Text([t]) == t.text + "";
  }

  lemma SingleLine(l: Line)
    ensures PaintLines([l]) == Paint(l.tokens)
  {
    hide Paint;
    assert [l][1..] == [];
    assert PaintLines([l]) == Paint(l.tokens) + [];
  }

  lemma PieceOf(text: string, n: nat, k: Kind)
    requires n <= |text|
    ensures PaintOne(Token(text, k)) == PaintOne(Token(text[..n], k)) + PaintOne(Token(text[n..], k))
  {
  }

  // ---- strings are not split ----

  /** The string and key tokens, in order. */
  function Strung(tokens: seq<Token>): seq<Token> {
    if tokens == [] then [] else If(IsString(tokens[0].kind), tokens[0]) + Strung(tokens[1..])
  }

  function StrungLines(lines: seq<Line>): seq<Token> {
    if lines == [] then [] else Strung(lines[0].tokens) + StrungLines(lines[1..])
  }

  lemma {:induction false} StrungConcat(a: seq<Token>, b: seq<Token>)
    ensures Strung(a + b) == Strung(a) + Strung(b)
  {
    if a == [] {
      assert a + b == b;
    } else {
      StrungConcat(a[1..], b);
      assert (a + b)[1..] == a[1..] + b && (a + b)[0] == a[0];
      Regroup(If(IsString(a[0].kind), a[0]), Strung(a[1..]), Strung(b));
    }
  }

  lemma {:induction false} StrungLinesConcat(a: seq<Line>, b: seq<Line>)
    ensures StrungLines(a + b) == StrungLines(a) + StrungLines(b)
  {
    hide Strung;
    if a == [] {
      assert a + b == b;
    } else {
      StrungLinesConcat(a[1..], b);
      assert (a + b)[1..] == a[1..] + b && (a + b)[0] == a[0];
      Regroup(Strung(a[0].tokens), StrungLines(a[1..]), StrungLines(b));
    }
  }

  /** The strings of the lines so far and of the current one. */
  ghost function Uncut(result: seq<Line>, current: seq<Token>): seq<Token> {
    StrungLines(result) + Strung(current)
  }

  lemma UncutAppend(result: seq<Line>, current: seq<Token>, t: Token)
    ensures Uncut(result, current + [t]) == Uncut(result, current) + If(IsString(t.kind), t)
  {
    StrungConcat(current, [t]);
    assert [t][1..] == [] && Strung([t]) == If(IsString(t.kind), t);
  }

  lemma UncutFlush(result: seq<Line>, current: seq<Token>)
    ensures Uncut(result + [Line(current, Text(current))], []) == Uncut(result, current)
    ensures Uncut([], []) == []
  {
    var l := Line(current, Text(current));
    StrungLinesConcat(result, [l]);
    assert [l][1..] == [] && StrungLines([l]) == Strung(current);
  }

  // ---- wrapTokens ----

  /** The local state of wrapTokens between two tokens. */
  ghost predicate State(result: seq<Line>, current: seq<Token>, currentLen: nat, w: nat) {
    && Wrapped(result, w)
    && currentLen == |Text(current)|
    && (current == [] ==> result == [])
    && (current != [] ==> Fits(current, w))
    && (current != [] && result != [] ==> Needed(|result[|result| - 1].raw|, current[0], w))
  }

  ghost function Painted(result: seq<Line>, current: seq<Token>): seq<(char, Kind)> {
    PaintLines(result) + Paint(current)
  }

  method Flush(result: seq<Line>, current: seq<Token>) returns (r: seq<Line>)
    ensures r == if current == [] then result else result + [Line(current, Text(current))]
  {
    if |current| == 0 {
      return result;
    }
    var raw := "";
    for i := 0 to |current|
      invariant raw == Text(current[..i])
    {
      assert current[..i + 1] == current[..i] + [current[i]];
      TextConcat(current[..i], [current[i]]);
      SingleToken(current[i]);
      raw := raw + current[i].text;
    }
    assert current[..|current|] == current;
    r := result + [Line(current, raw)];
  }

  /** Flushing keeps the picture. */
  lemma Flushed(result: seq<Line>, current: seq<Token>, len: nat, w: nat)
    requires State(result, current, len, w) && current != []
    ensures var r := result + [Line(current, Text(current))];
      Wrapped(r, w) && PaintLines(r) == Painted(result, current) && |r[|r| - 1].raw| == len
  {
    hide Paint, PaintLines, Text;
    PaintLinesConcat(result, [Line(current, Text(current))]);
    SingleLine(Line(current, Text(current)));
  }

  /** One token more on the current line. */
  lemma Appended(result: seq<Line>, current: seq<Token>, t: Token)
    ensures Painted(result, current + [t]) == Painted(result, current) + PaintOne(t)
    ensures |Text(current + [t])| == |Text(current)| + |t.text|
  {
    PaintConcat(current, [t]);
    TextConcat(current, [t]);
    SingleToken(t);
    hide Paint, PaintLines, PaintOne, Text;
    Regroup(PaintLines(result), Paint(current), PaintOne(t));
  }

  /** One token alone on a new line. */
  lemma Alone(result: seq<Line>, t: Token)
    ensures Painted(result, [t]) == PaintLines(result) + PaintOne(t)
    ensures |Text([t])| == |t.text|
  {
    SingleToken(t);
  }

  /** A string or key token, never split. */
  method PlaceString(result: seq<Line>, current: seq<Token>, currentLen: nat, token: Token, w: nat)
    returns (r: seq<Line>, c: seq<Token>, len: nat)
    requires State(result, current, currentLen, w) && IsString(token.kind) && w > 0
    ensures State(r, c, len, w) && Painted(r, c) == Painted(result, current) + PaintOne(token)
    ensures Uncut(r, c) == Uncut(result, current) + [token]
  {
    hide Text, Paint, PaintLines, PaintOne, Uncut;
    r, c, len := result, current, currentLen;
    UncutFlush(result, current);
    Appended(result, current, token);
    Alone(result, token);
    if currentLen + |token.text| > w {
      r := Flush(r, c);
      if current != [] {
        Flushed(result, current, currentLen, w);
        Alone(r, token);
      }
      c, len := [], 0;
    }
    UncutAppend(r, c, token);
    c := c + [token];
    len := len + |token.text|;
    NoText();
    assert [] + [token] == [token];
  }

  lemma NoText()
    ensures Text([]) == "" && Paint([]) == [] && PaintLines([]) == []
  {
  }

  /** Any other token, cut where a line is full. */
  method PlaceRunes(result: seq<Line>, current: seq<Token>, currentLen: nat, token: Token, w: nat)
    returns (r: seq<Line>, c: seq<Token>, len: nat)
    requires State(result, current, currentLen, w) && !IsString(token.kind) && w > 0
    ensures State(r, c, len, w) && Painted(r, c) == Painted(result, current) + PaintOne(token)
    ensures Uncut(r, c) == Uncut(result, current)
  {
    hide State, Painted, PaintOne, Uncut;
    r, c, len := result, current, currentLen;
    var runes := token.text;
    while |runes| > 0
      invariant State(r, c, len, w) && Uncut(r, c) == Uncut(result, current)
      invariant Painted(r, c) + PaintOne(Token(runes, token.kind)) == Painted(result, current) + PaintOne(token)
    {
      var n;
      r, c, len, n := PlacePiece(r, c, len, Token(runes, token.kind), w);
      runes := runes[n..];
    }
    EmptyPaint(runes, token.kind);
  }

  lemma EmptyPaint(runes: string, k: Kind)
    requires runes == ""
    ensures PaintOne(Token(runes, k)) == []
  {
  }

  /** A piece that fits may go onto the current line, or begin one where the last is full. */
  lemma Pieced(r: seq<Line>, c: seq<Token>, len: nat, piece: Token, w: nat)
    requires Wrapped(r, w) && len == |Text(c)| && len + |piece.text| <= w
    requires c != [] ==> State(r, c, len, w)
    requires c == [] && r != [] ==> Needed(|r[|r| - 1].raw|, piece, w)
    ensures State(r, c + [piece], len + |piece.text|, w)
  {
    hide Wrapped, Text;
    TextConcat(c, [piece]);
    SingleToken(piece);
  }

  /** One turn of the splitting loop: `n` runes go onto the current line. */
  method PlacePiece(result: seq<Line>, current: seq<Token>, currentLen: nat, rest: Token, w: nat)
    returns (r: seq<Line>, c: seq<Token>, len: nat, n: nat)
    requires State(result, current, currentLen, w) && !IsString(rest.kind) && w > 0 && |rest.text| > 0
    ensures 0 < n <= |rest.text| && State(r, c, len, w)
    ensures Painted(r, c) + PaintOne(Token(rest.text[n..], rest.kind)) == Painted(result, current) + PaintOne(rest)
    ensures Uncut(r, c) == Uncut(result, current)
  {
    hide Text, Paint, PaintLines, PaintOne, Uncut, Wrapped, Fits;
    r, c, len := result, current, currentLen;
    UncutFlush(result, current);
    var spaceLeft := w - len;
    NoText();
    if spaceLeft <= 0 {
      r := Flush(r, c);
      Flushed(result, current, currentLen, w);
      c, len := [], 0;
      spaceLeft := w;
    }
    n := if |rest.text| <= spaceLeft then |rest.text| else spaceLeft;
    var piece := Token(rest.text[..n], rest.kind);
    Appended(r, c, piece);
    UncutAppend(r, c, piece);
    Pieced(r, c, len, piece, w);
    PieceOf(rest.text, n, rest.kind);
    c := c + [piece];
    len := len + n;
    Regroup(Painted(result, current), PaintOne(piece), PaintOne(Token(rest.text[n..], rest.kind)));
  }

  /** Nothing is lost, not even a colour; every line fits or is one over-long string; no line ends early, and no
      string is split. */
  method WrapTokens(tokens: seq<Token>, charsPerLine: int) returns (lines: seq<Line>)
    ensures PaintLines(lines) == Paint(tokens)
    ensures Wrapped(lines, if charsPerLine > 0 then charsPerLine else 80)
    ensures StrungLines(lines) == Strung(tokens)
  {
    hide Paint, PaintLines, PaintOne, Text, Uncut, Strung, StrungLines;
    var w := if charsPerLine <= 0 then 80 else charsPerLine;
    lines := [];
    var current: seq<Token>, currentLen := [], 0;
    NoText();
    NoStrings();
    assert tokens[..0] == [];
    for i := 0 to |tokens|
      invariant State(lines, current, currentLen, w) && Uncut(lines, current) == Strung(tokens[..i])
      invariant Painted(lines, current) == Paint(tokens[..i])
    {
      var token := tokens[i];
      assert tokens[..i + 1] == tokens[..i] + [token];
      PaintConcat(tokens[..i], [token]);
      SingleToken(token);
      UncutAppend([], tokens[..i], token);
      UncutStart(tokens[..i]);
      UncutStart(tokens[..i + 1]);
      if token.kind == JsonStr || token.kind == JsonKey {
        lines, current, currentLen := PlaceString(lines, current, currentLen, token, w);
      } else {
        lines, current, currentLen := PlaceRunes(lines, current, currentLen, token, w);
      }
    }
    assert tokens[..|tokens|] == tokens;
    UncutFlush(lines, current);
    if current != [] {
      Flushed(lines, current, currentLen, w);
    }
    lines := Flush(lines, current);
    UncutEnd(lines);
  }

  lemma NoStrings()
    ensures Strung([]) == [] && Uncut([], []) == []
  {
  }

  lemma UncutStart(tokens: seq<Token>)
    ensures Uncut([], tokens) == Strung(tokens)
  {
  }

  lemma UncutEnd(lines: seq<Line>)
    ensures Uncut(lines, []) == StrungLines(lines)
  {
  }

  /** The text of a picture. */
  function Letters(p: seq<(char, Kind)>): string {
    seq(|p|, i requires 0 <= i < |p| => p[i].0)
  }

  lemma {:induction false} LettersOfTokens(tokens: seq<Token>)
    ensures Letters(Paint(tokens)) == Text(tokens)
  {
    if tokens != [] {
      LettersOfTokens(tokens[1..]);
      var a, b := PaintOne(tokens[0]), Paint(tokens[1..]);
      assert Letters(a) == tokens[0].text;
      assert Letters(a + b) == Letters(a) + Letters(b);
    }
  }
}

/** Tokenising one line for syntax colours: HTTP start and header lines, and JSON. Strings are runes here. */
module Tokeniser {
  import opened Strings
  import opened Words
  import opened Lists

  datatype Kind =
    | Plain | Method | Path | Version | Status2xx | Status3xx | Status4xx | Status5xx
    | HdrName | HdrColon | HdrValue | JsonKey | JsonStr | JsonNum | JsonBool | JsonPunct | Low

  datatype Token = Token(text: string, kind: Kind)

  predicate IsString(k: Kind) { k == JsonKey || k == JsonStr }

  function Text(tokens: seq<Token>): string {
    if tokens == [] then "" else tokens[0].text + Text(tokens[1..])
  }

  lemma {:induction false} TextConcat(a: seq<Token>, b: seq<Token>)
    ensures Text(a + b) == Text(a) + Text(b)
  {
    if a == [] {
      assert a + b == b;
    } else {
      TextConcat(a[1..], b);
      assert (a + b)[1..] == a[1..] + b;
      assert a[0].text + (Text(a[1..]) + Text(b)) == (a[0].text + Text(a[1..])) + Text(b);
    }
  }

  // ---- where a string ends ----

  /** Backslashes counted backwards from `i`, down to `pos`. */
  function Backslashes(s: string, pos: nat, i: int): nat
    requires i < |s|
    decreases i - pos + 1
  {
    if i < pos || s[i] != '\\' then 0 else 1 + Backslashes(s, pos, i - 1)
  }

  /** The first quote from `end` on with an even number of backslashes before it, or the end of the line. */
  function ClosingQuote(s: string, pos: nat, end: nat): (q: nat)
    requires pos < end <= |s|
    ensures end <= q <= |s|
    decreases |s| - end
  {
    if end == |s| then end
    else if s[end] == '"' && Backslashes(s, pos, end - 1) % 2 == 0 then end
    else ClosingQuote(s, pos, end + 1)
  }

  function StringEnd(s: string, pos: nat): (end: nat)
    requires pos < |s|
    ensures pos < end <= |s|
  {
    var q := ClosingQuote(s, pos, pos + 1);
    if q < |s| then q + 1 else q
  }

  /** The reference: one pass forward, remembering only whether the last character was an escape. */
  function Scan(s: string, i: nat, escaped: bool): (end: nat)
    requires i <= |s|
    ensures i <= end <= |s|
    decreases |s| - i
  {
    if i == |s| then i
    else if escaped then Scan(s, i + 1, false)
    else if s[i] == '"' then i + 1
    else Scan(s, i + 1, s[i] == '\\')
  }

  lemma {:induction false} ParityIsEscape(s: string, pos: nat, i: nat)
    requires pos < i <= |s|
    ensures var q := ClosingQuote(s, pos, i);
      Scan(s, i, Backslashes(s, pos, i - 1) % 2 == 1) == if q < |s| then q + 1 else q
    decreases |s| - i
  {
    if i < |s| {
      ParityIsEscape(s, pos, i + 1);
    }
  }

  /** Counting backslashes backwards finds the same end as scanning forwards (RFC 8259, section 7). */
  lemma StringEndIsScan(s: string, pos: nat)
    requires pos < |s| && s[pos] == '"'
    ensures StringEnd(s, pos) == Scan(s, pos + 1, false)
  {
    ParityIsEscape(s, pos, pos + 1);
  }

  // ---- JSON ----

  predicate NumChar(c: char) { '0' <= c <= '9' || c == '.' || c == 'e' || c == 'E' || c == '+' || c == '-' }
  predicate BlankChar(c: char) { c == ' ' || c == '\t' }
  predicate PunctChar(c: char) { c in "{}[],:" }

  function RunEnd(s: string, i: nat, ok: char -> bool): (end: nat)
    requires i <= |s|
    ensures i <= end <= |s| && (end < |s| ==> !ok(s[end]))
    ensures forall k :: i <= k < end ==> ok(s[k])
    decreases |s| - i
  {
    if i < |s| && ok(s[i]) then RunEnd(s, i + 1, ok) else i
  }

  /** A string is a key when a colon follows, blanks aside. */
  function StringKind(s: string, end: nat): Kind
    requires end <= |s|
  {
    var peek := RunEnd(s, end, c => c == ' ');
    if peek < |s| && s[peek] == ':' then JsonKey else JsonStr
  }

  function Keyword(s: string, pos: nat): (w: string)
    requires pos < |s|
    ensures pos + |w| <= |s| && w == s[pos..pos + |w|] && '"' !in w
  {
    if "true" <= s[pos..] then "true"
    else if "false" <= s[pos..] then "false"
    else if "null" <= s[pos..] then "null" else ""
  }

  /** The token at a place that is no quote. */
  function BareToken(s: string, pos: nat): (t: Token)
    requires pos < |s| && s[pos] != '"'
    ensures t.text != "" && pos + |t.text| <= |s| && t.text == s[pos..pos + |t.text|]
    ensures !IsString(t.kind) && '"' !in t.text
  {
    hide RunEnd, Keyword;
    var ch := s[pos];
    if PunctChar(ch) then Token([ch], JsonPunct)
    else if ch == '-' || '0' <= ch <= '9' then Token(s[pos..RunEnd(s, pos + 1, NumChar)], JsonNum)
    else if ch == 't' || ch == 'f' || ch == 'n' then
      if Keyword(s, pos) != "" then Token(Keyword(s, pos), JsonBool) else Token([ch], Plain)
    else if BlankChar(ch) then Token(s[pos..RunEnd(s, pos + 1, BlankChar)], Plain)
    else Token([ch], Plain)
  }

  /** The token at one place of a line. */
  function JsonToken(s: string, pos: nat): (t: Token)
    requires pos < |s|
    ensures t.text != "" && pos + |t.text| <= |s| && t.text == s[pos..pos + |t.text|]
    ensures IsString(t.kind) <==> s[pos] == '"'
    ensures s[pos] == '"' ==> pos + |t.text| == StringEnd(s, pos)
    ensures !IsString(t.kind) ==> '"' !in t.text
  {
    hide StringKind, StringEnd, BareToken;
    if s[pos] == '"' then Token(s[pos..StringEnd(s, pos)], StringKind(s, StringEnd(s, pos))) else BareToken(s, pos)
  }

  function JsonFrom(s: string, pos: nat): seq<Token>
    requires pos <= |s|
    decreases |s| - pos
  {
    if pos == |s| then [] else [JsonToken(s, pos)] + JsonFrom(s, pos + |JsonToken(s, pos).text|)
  }

  function JsonTokens(line: string): seq<Token> {
    if line == "" then [Token("", Plain)] else JsonFrom(line, 0)
  }

  method StringEndLoop(s: string, pos: nat) returns (end: nat)
    requires pos < |s| && s[pos] == '"'
    ensures end == StringEnd(s, pos)
  {
    end := pos + 1;
    while end < |s|
      invariant pos < end <= |s| && ClosingQuote(s, pos, end) == ClosingQuote(s, pos, pos + 1)
    {
      if s[end] == '"' {
        var numBackslashes := 0;
        var i := end - 1;
        while i >= pos && s[i] == '\\'
          invariant pos - 1 <= i < end && numBackslashes + Backslashes(s, pos, i) == Backslashes(s, pos, end - 1)
          decreases i
        {
          numBackslashes := numBackslashes + 1;
          i := i - 1;
        }
        if numBackslashes % 2 == 0 {
          break;
        }
      }
      end := end + 1;
    }
    if end < |s| {
      end := end + 1;
    }
  }

  method RunLoop(s: string, from: nat, ok: char -> bool) returns (end: nat)
    requires from <= |s|
    ensures end == RunEnd(s, from, ok)
  {
    end := from;
    while end < |s| && ok(s[end])
      invariant from <= end <= |s| && RunEnd(s, end, ok) == RunEnd(s, from, ok)
    {
      end := end + 1;
    }
  }

  /** One turn of tokeniseJSON's loop. */
  method NextJson(s: string, pos: nat) returns (t: Token)
    requires pos < |s|
    ensures t == JsonToken(s, pos)
  {
    var ch := s[pos];
    if ch == '"' {
      var end := StringEndLoop(s, pos);
      var peek := RunLoop(s, end, c => c == ' ');
      var key := peek < |s| && s[peek] == ':';
      t := Token(s[pos..end], if key then JsonKey else JsonStr);
    } else if ch == '{' || ch == '}' || ch == '[' || ch == ']' || ch == ',' || ch == ':' {
      t := Token([ch], JsonPunct);
    } else if ch == '-' || (ch >= '0' && ch <= '9') {
      var end := RunLoop(s, pos + 1, NumChar);
      t := Token(s[pos..end], JsonNum);
    } else if ch == 't' || ch == 'f' || ch == 'n' {
      if "true" <= s[pos..] {
        t := Token("true", JsonBool);
      } else if "false" <= s[pos..] {
        t := Token("false", JsonBool);
      } else if "null" <= s[pos..] {
        t := Token("null", JsonBool);
      } else {
        t := Token([ch], Plain);
      }
    } else if ch == ' ' || ch == '\t' {
      var end := RunLoop(s, pos + 1, BlankChar);
      t := Token(s[pos..end], Plain);
    } else {
      t := Token([ch], Plain);
    }
  }

  method TokeniseJSON(line: string) returns (tokens: seq<Token>)
    ensures tokens == JsonTokens(line)
  {
    if line == "" {
      return [Token("", Plain)];
    }
    hide JsonFrom;
    tokens := [];
    var pos := 0;
    while pos < |line|
      invariant pos <= |line| && tokens + JsonFrom(line, pos) == JsonFrom(line, 0)
    {
      var t, next := JsonStep(line, pos);
      Regroup(tokens, [t], JsonFrom(line, next));
      tokens := tokens + [t];
      pos := next;
    }
    NoJson(line);
  }

  method JsonStep(s: string, pos: nat) returns (t: Token, next: nat)
    requires pos < |s|
    ensures pos < next <= |s| && JsonFrom(s, pos) == [t] + JsonFrom(s, next)
  {
    hide JsonToken, StringEnd;
    t := NextJson(s, pos);
    next := pos + |t.text|;
  }

  lemma NoJson(s: string)
    ensures JsonFrom(s, |s|) == []
  {
  }

  // ---- tokenising loses nothing ----

  lemma CutTwice(s: string, i: nat, j: nat)
    requires i <= j <= |s|
    ensures s[i..] == s[i..j] + s[j..]
  {
  }

  lemma {:induction false} JsonTextFrom(s: string, pos: nat)
    requires pos <= |s|
    ensures Text(JsonFrom(s, pos)) == s[pos..]
    decreases |s| - pos
  {
    hide JsonToken, StringEnd;
    if pos < |s| {
      var n := |JsonToken(s, pos).text|;
      JsonTextFrom(s, pos + n);
      CutTwice(s, pos, pos + n);
    }
  }

  /** The tokens of a JSON line spell it. */
  lemma JsonLossless(line: string)
    ensures Text(JsonTokens(line)) == line
  {
    if line != "" {
      JsonTextFrom(line, 0);
      assert line[0..] == line;
    }
  }

  // ---- strings are where a JSON reader sees them ----

  datatype State = Outside | Inside | Escape

  /** A JSON reader's view of a line: which characters belong to strings, quotes included. */
  function Mask(s: string, i: nat, st: State): (m: seq<bool>)
    requires i <= |s|
    ensures |m| == |s| - i
    decreases |s| - i
  {
    if i == |s| then []
    else
      match st
      case Outside => [s[i] == '"'] + Mask(s, i + 1, if s[i] == '"' then Inside else Outside)
      case Inside => [true] + Mask(s, i + 1, if s[i] == '"' then Outside else if s[i] == '\\' then Escape else Inside)
      case Escape => [true] + Mask(s, i + 1, Inside)
  }

  /** The same from the tokens: true for each character of a key or string token. */
  function Coloured(tokens: seq<Token>): seq<bool> {
    if tokens == [] then [] else seq(|tokens[0].text|, _ => IsString(tokens[0].kind)) + Coloured(tokens[1..])
  }

  lemma {:induction false} MaskString(s: string, i: nat, escaped: bool)
    requires i <= |s|
    ensures var end := Scan(s, i, escaped);
      Mask(s, i, if escaped then Escape else Inside) == seq(end - i, _ => true) + Mask(s, end, Outside)
    decreases |s| - i
  {
    if i < |s| {
      var end := Scan(s, i, escaped);
      if !escaped && s[i] == '"' {
        assert seq(1, _ => true) == [true];
      } else {
        var next := if escaped then false else s[i] == '\\';
        MaskString(s, i + 1, next);
        assert [true] + seq(end - (i + 1), _ => true) == seq(end - i, _ => true);
      }
    }
  }

  lemma {:induction false} MaskPlain(s: string, i: nat, end: nat)
    requires i <= end <= |s| && '"' !in s[i..end]
    ensures Mask(s, i, Outside) == seq(end - i, _ => false) + Mask(s, end, Outside)
    decreases end - i
  {
    if i < end {
      assert s[i] == s[i..end][0] && s[i + 1..end] == s[i..end][1..];
      MaskPlain(s, i + 1, end);
      assert [false] + seq(end - (i + 1), _ => false) == seq(end - i, _ => false);
    }
  }

  lemma TokenMask(s: string, pos: nat)
    requires pos < |s|
    ensures var t := JsonToken(s, pos);
      Mask(s, pos, Outside) == seq(|t.text|, _ => IsString(t.kind)) + Mask(s, pos + |t.text|, Outside)
  {
    hide JsonToken, StringEnd, Scan;
    var t := JsonToken(s, pos);
    var end := pos + |t.text|;
    var rest := Mask(s, end, Outside);
    if s[pos] == '"' {
      StringEndIsScan(s, pos);
      MaskString(s, pos + 1, false);
      assert [true] + (seq(end - (pos + 1), _ => true) + rest) == seq(end - pos, _ => true) + rest;
      assert seq(|t.text|, _ => IsString(t.kind)) == seq(end - pos, _ => true);
    } else {
      MaskPlain(s, pos, end);
      assert seq(|t.text|, _ => IsString(t.kind)) == seq(end - pos, _ => false);
    }
  }

  lemma {:induction false} ColouredFrom(s: string, pos: nat)
    requires pos <= |s|
    ensures Coloured(JsonFrom(s, pos)) == Mask(s, pos, Outside)
    decreases |s| - pos
  {
    hide JsonToken;
    if pos < |s| {
      TokenMask(s, pos);
      ColouredFrom(s, pos + |JsonToken(s, pos).text|);
    }
  }

  /** Exactly the characters inside JSON strings are coloured as keys or strings. */
  lemma StringsAreStrings(line: string)
    ensures Coloured(JsonTokens(line)) == Mask(line, 0, Outside)
  {
    if line != "" {
      ColouredFrom(line, 0);
    }
  }

  // ---- header lines and start lines ----

  function MetaTokens(line: string, isFirstLine: bool): seq<Token> {
    if line == "" then [Token("", Plain)]
    else if isFirstLine then StartTokens(line)
    else
      var i := Find(line, ":");
      if i < 0 then [Token(line, Plain)]
      else [Token(line[..i], HdrName), Token(":", HdrColon), Token(line[i + 1..], HdrValue)]
  }

  function StatusKind(code: string): Kind
    requires code != ""
  {
    if code[0] == '3' then Status3xx else if code[0] == '4' then Status4xx
    else if code[0] == '5' then Status5xx else Status2xx
  }

  function StartTokens(line: string): seq<Token> {
    var parts := Fields(line);
    if TrimSpace(line) == "" || parts == [] then [Token(line, Plain)]
    else if "HTTP/" <= parts[0] then
      if |parts| < 2 then [Token(line, Plain)]
      else
        [Token(parts[0] + " ", Version), Token(parts[1], StatusKind(parts[1]))]
        + (if |parts| > 2 then [Token(" " + Join(parts[2..], " "), Low)] else [])
    else if |parts| >= 3 then
      [Token(parts[0] + " ", Method), Token(parts[1], Path), Token(" " + Join(parts[2..], " "), Version)]
    else [Token(line, Plain)]
  }

  lemma TextOfThree(a: Token, b: Token, c: Token)
    ensures Text([a]) == a.text && Text([a, b]) == a.text + b.text && Text([a, b, c]) == a.text + b.text + c.text
  {
    assert [a][1..] == [] && [a, b][1..] == [b] && [b][1..] == [];
    assert [a, b, c][1..] == [b, c] && [b, c][1..] == [c] && [c][1..] == [];
    assert Text([a]) == a.text + "" && Text([b]) == b.text + "" && Text([c]) == c.text + "";
    assert a.text + (b.text + c.text) == a.text + b.text + c.text;
  }

  /** Whether a start line is taken apart into its words. */
  predicate TakenApart(line: string) {
    TrimSpace(line) != "" && |Fields(line)| >= (if Fields(line) != [] && "HTTP/" <= Fields(line)[0] then 2 else 3)
  }

  /** A start line that is taken apart is put together again with single blanks. Any other line is spelt as it is. */
  lemma StartText(line: string)
    ensures Text(StartTokens(line)) == if TakenApart(line) then Join(Fields(line), " ") else line
  {
    hide Fields, TrimSpace, Join, Text;
    var f := Fields(line);
    var p := Token(line, Plain);
    TextOfThree(p, p, p);
    if TakenApart(line) {
      JoinTwo(f);
      var a, b := StartTokens(line)[0], StartTokens(line)[1];
      var c := Token(" " + Join(f[2..], " "), if "HTTP/" <= f[0] then Low else Version);
      TextOfThree(a, b, c);
      assert StartTokens(line) == if |f| > 2 then [a, b, c] else [a, b];
    }
  }

  lemma JoinTwo(f: seq<string>)
    requires |f| >= 2
    ensures Join(f, " ") == if |f| == 2 then (f[0] + " ") + f[1] else (f[0] + " ") + f[1] + (" " + Join(f[2..], " "))
  {
    assert f[1..][1..] == f[2..] && f[1..][0] == f[1];
    if |f| == 2 {
      assert f[1..] == [f[1]] && Join([f[1]], " ") == f[1];
    } else {
      assert f[0] + " " + (f[1] + " " + Join(f[2..], " ")) == (f[0] + " ") + f[1] + (" " + Join(f[2..], " "));
    }
  }

  /** Every white space is one blank, inside the line, with no other after it. */
  ghost predicate SingleBlanks(s: string) {
    forall i :: 0 <= i < |s| && IsSpace(s[i]) ==> s[i] == ' ' && 0 < i < |s| - 1 && !IsSpace(s[i + 1])
  }

  lemma {:induction false} JoinedSingle(f: seq<string>)
    requires f != [] && forall i :: 0 <= i < |f| ==> f[i] != "" && NoSpace(f[i])
    ensures var s := Join(f, " "); SingleBlanks(s) && s != "" && !IsSpace(s[0])
  {
    if |f| > 1 {
      JoinedSingle(f[1..]);
      var t, s, n := Join(f[1..], " "), Join(f, " "), |f[0]|;
      assert s == f[0] + " " + t;
      forall i | 0 <= i < |s| && IsSpace(s[i]) ensures s[i] == ' ' && 0 < i < |s| - 1 && !IsSpace(s[i + 1]) {
        if i > n {
          assert s[i] == t[i - n - 1];
          assert s[i + 1] == t[i - n];
        } else if i == n {
          assert s[i + 1] == t[0];
        }
      }
    }
  }

  lemma AfterBlank(s: string, n: nat)
    requires SingleBlanks(s) && n < |s| && IsSpace(s[n])
    ensures var t := s[n + 1..]; SingleBlanks(t) && t != "" && !IsSpace(t[0]) && s[n..] == " " + t
  {
    var t := s[n + 1..];
    assert t[0] == s[n + 1];
    forall i | 0 <= i < |t| && IsSpace(t[i]) ensures t[i] == ' ' && 0 < i < |t| - 1 && !IsSpace(t[i + 1]) {
      assert s[n + 1 + i] == t[i];
      assert s[n + 1 + i + 1] == t[i + 1];
    }
  }

  lemma StartsWithWord(s: string)
    requires SingleBlanks(s) && s != ""
    ensures WordLen(s) > 0
  {
  }

  lemma {:induction false} SingleJoined(s: string)
    requires SingleBlanks(s)
    ensures Join(Fields(s), " ") == s
    decreases |s|
  {
    hide TrimLeft, NoSpace, SingleBlanks, IsSpace, WordLen, Fields;
    NoFields();
    if s != "" {
      StartsWithWord(s);
      var n := WordLen(s);
      var w, rest := s[..n], s[n..];
      assert s == w + rest;
      FieldsStep(w, rest);
      if rest != "" {
        var t := s[n + 1..];
        AfterBlank(s, n);
        SingleJoined(t);
        SkipBlank(t);
        JoinCons(w, Fields(t), " ");
        assert s == w + " " + t;
      }
    }
  }

  lemma SkipBlank(t: string)
    requires t != "" && !IsSpace(t[0])
    ensures Fields(" " + t) == Fields(t) != []
  {
    hide Fields, TrimLeft;
    var m := WordLen(t);
    assert t == t[..m] + t[m..] && t[..m] != "";
    FieldsStep(t[..m], t[m..]);
  }

  /** Words put together with single blanks spell the line if and only if it had single blanks only. */
  lemma FieldsJoinIff(line: string)
    ensures Join(Fields(line), " ") == line <==> SingleBlanks(line)
  {
    hide Fields, SingleBlanks;
    if SingleBlanks(line) {
      SingleJoined(line);
    }
    if Join(Fields(line), " ") == line {
      if Fields(line) == [] {
        NoBlanks();
      } else {
        JoinedSingle(Fields(line));
      }
    }
  }

  lemma NoBlanks()
    ensures SingleBlanks("")
  {
  }

  /** Tokenising a start line loses nothing if and only if the line is not taken apart or had single blanks only. */
  lemma StartLosslessIff(line: string)
    ensures Text(StartTokens(line)) == line <==> (TakenApart(line) ==> SingleBlanks(line))
  {
    hide TakenApart, SingleBlanks, StartTokens, Fields;
    StartText(line);
    FieldsJoinIff(line);
  }

  /** Two blanks become one. */
  lemma LostBlankExample()
    ensures Text(StartTokens("GET  / HTTP/1.1")) == "GET / HTTP/1.1"
  {
    hide Fields, StartTokens, TrimSpace, Text, Join;
    var line := "GET  / HTTP/1.1";
    assert line == "GET" + (" " + (" " + ("/" + (" " + "HTTP/1.1"))));
    assert NoSpace("GET") && NoSpace("/") && NoSpace("HTTP/1.1");
    TwoBlanks("GET", "/", "HTTP/1.1");
    NotBlank(line);
    StartText(line);
    JoinOfThree("GET", "/", "HTTP/1.1");
  }

  lemma TwoBlanks(a: string, b: string, c: string)
    requires a != "" && b != "" && c != "" && NoSpace(a) && NoSpace(b) && NoSpace(c)
    ensures Fields(a + (" " + (" " + (b + (" " + c))))) == [a, b, c]
  {
    hide Fields, NoSpace;
    var rest := " " + (b + (" " + c));
    FieldsStep(a, " " + rest);
    SkipBlanks(rest);
    FieldsStep(b, " " + c);
    FieldsStep(c, "");
    NoFields();
    assert c + "" == c;
  }

  lemma SkipBlanks(s: string)
    ensures Fields(" " + s) == Fields(s)
  {
    hide WordLen;
    assert (" " + s)[1..] == s;
  }

  lemma NotBlank(line: string)
    requires line != "" && !IsSpace(line[0]) && !IsSpace(line[|line| - 1])
    ensures TrimSpace(line) != ""
  {
  }

  lemma JoinOfThree(a: string, b: string, c: string)
    ensures Join([a, b, c], " ") == a + " " + (b + " " + c)
  {
    assert [a, b, c][1..] == [b, c] && [b, c][1..] == [c] && Join([c], " ") == c;
  }

  /** Header lines are spelt as they are. */
  lemma MetaLossless(line: string)
    ensures Text(MetaTokens(line, false)) == line
    ensures Text(MetaTokens(line, true)) == if TakenApart(line) then Join(Fields(line), " ") else line
  {
    hide Fields, StartTokens, Join, TrimSpace, TakenApart, Text, Find;
    var i := Find(line, ":");
    var p := Token(line, Plain);
    TextOfThree(p, p, p);
    StartText(line);
    if line != "" && i >= 0 {
      TextOfThree(Token(line[..i], HdrName), Token(":", HdrColon), Token(line[i + 1..], HdrValue));
      assert line == line[..i] + line[i..i + 1] + line[i + 1..];
    }
    if line == "" {
      NothingToTrim();
    }
  }

  lemma NothingToTrim()
    ensures !TakenApart("")
  {
  }
}

/** What the colours stand for: the kind of every token, by the text of its line alone. */
module TokenKinds {
  import opened Strings
  import opened Words
  import opened Tokeniser
  import opened ParseText
  import opened ChunkColours

  // ---- JSON ----

  /** A colon follows at `q`, blanks aside. */
  ghost predicate ColonFollows(line: string, q: nat) {
    exists c :: q <= c < |line| && line[c] == ':' && forall j :: q <= j < c ==> line[j] == ' '
  }

  /** From `p + 1` to `q` runs the longest stretch of characters that are all in `of`. */
  ghost predicate RunsTo(line: string, p: nat, q: nat, of: string) {
    p < q <= |line| && (forall j :: p < j < q ==> line[j] in of) && (q < |line| ==> line[q] !in of)
  }

  /** One of the three words begins at `p`. */
  predicate WordAt(line: string, p: nat)
    requires p <= |line|
  {
    "true" <= line[p..] || "false" <= line[p..] || "null" <= line[p..]
  }

  predicate Punctuation(c: char) { c in "{}[],:" }
  predicate NumberStart(c: char) { c in "-0123456789" }
  predicate Blank(c: char) { c in " \t" }

  /** What the token `t` at place `p` is. */
  ghost predicate Means(line: string, p: nat, t: Token) {
    var q := p + |t.text|;
    && p < q <= |line| && t.text == line[p..q]
    && (t.kind == JsonKey <==> line[p] == '"' && ColonFollows(line, q))
    && (t.kind == JsonStr <==> line[p] == '"' && !ColonFollows(line, q))
    && (t.kind == JsonPunct <==> Punctuation(line[p])) && (t.kind == JsonPunct ==> q == p + 1)
    && (t.kind == JsonNum <==> NumberStart(line[p]))
    && (t.kind == JsonNum ==> RunsTo(line, p, q, "0123456789.eE+-"))
    && (t.kind == JsonBool <==> WordAt(line, p)) && (t.kind == JsonBool ==> t.text in ["true", "false", "null"])
    && (t.kind !in {JsonKey, JsonStr, JsonPunct, JsonNum, JsonBool} ==>
          t.kind == Plain && if Blank(line[p]) then RunsTo(line, p, q, " \t") else q == p + 1)
  }

  lemma StringMeans(s: string, end: nat)
    requires end <= |s|
    ensures StringKind(s, end) == if ColonFollows(s, end) then JsonKey else JsonStr
  {
    var peek := RunEnd(s, end, c => c == ' ');
    if ColonFollows(s, end) {
      var c :| end <= c < |s| && s[c] == ':' && forall j :: end <= j < c ==> s[j] == ' ';
      assert peek == c;
    }
  }

  lemma DigitChars(c: char)
    ensures NumberStart(c) <==> c == '-' || '0' <= c <= '9'
    ensures c in "0123456789.eE+-" <==> NumChar(c)
    ensures (c in " \t" <==> BlankChar(c)) && (Blank(c) <==> BlankChar(c)) && (Punctuation(c) <==> PunctChar(c))
    ensures Punctuation(c) <==> c == '{' || c == '}' || c == '[' || c == ']' || c == ',' || c == ':'
  {
  }

  lemma NumberMeans(s: string, pos: nat)
    requires pos < |s|
    ensures RunsTo(s, pos, RunEnd(s, pos + 1, NumChar), "0123456789.eE+-")
    ensures RunsTo(s, pos, RunEnd(s, pos + 1, BlankChar), " \t")
  {
    forall c: char ensures (c in "0123456789.eE+-" <==> NumChar(c)) && (c in " \t" <==> BlankChar(c)) {
      DigitChars(c);
    }
  }

  lemma WordMeans(s: string, pos: nat)
    requires pos < |s|
    ensures Keyword(s, pos) != "" <==> WordAt(s, pos)
    ensures Keyword(s, pos) != "" ==> Keyword(s, pos) in ["true", "false", "null"]
    ensures WordAt(s, pos) ==> s[pos] == 't' || s[pos] == 'f' || s[pos] == 'n'
  {
    assert "true"[0] == 't' && "false"[0] == 'f' && "null"[0] == 'n';
    assert s[pos..][0] == s[pos];
  }

  lemma TokenMeans(s: string, pos: nat)
    requires pos < |s|
    ensures Means(s, pos, JsonToken(s, pos))
  {
    hide BareToken, StringKind, StringEnd, RunsTo, ColonFollows, WordAt, Punctuation, NumberStart, Blank;
    DigitChars(s[pos]);
    if s[pos] == '"' {
      StringMeans(s, StringEnd(s, pos));
      WordMeans(s, pos);
    } else {
      BareMeans(s, pos);
    }
  }

  lemma BareMeans(s: string, pos: nat)
    requires pos < |s| && s[pos] != '"'
    ensures Means(s, pos, BareToken(s, pos))
  {
    hide RunEnd, Keyword, RunsTo, ColonFollows, WordAt, NumChar, Punctuation, NumberStart, Blank, PunctChar;
    DigitChars(s[pos]);
    WordMeans(s, pos);
    NumberMeans(s, pos);
  }

  lemma {:induction false} FromMeans(s: string, pos: nat, i: nat)
    requires pos <= |s| && i < |JsonFrom(s, pos)|
    ensures Means(s, pos + |Text(JsonFrom(s, pos)[..i])|, JsonFrom(s, pos)[i])
    decreases i
  {
    hide Means, JsonToken;
    var ts, t := JsonFrom(s, pos), JsonToken(s, pos);
    if i == 0 {
      TokenMeans(s, pos);
    } else {
      var next := pos + |t.text|;
      FromMeans(s, next, i - 1);
      assert ts[..i] == [t] + JsonFrom(s, next)[..i - 1];
      assert Text(ts[..i]) == t.text + Text(JsonFrom(s, next)[..i - 1]);
    }
  }

  /** Every token of a JSON line, by the line alone: keys are the strings a colon follows, other strings are values,
      numbers, words and punctuation begin as they do in JSON, and the rest is plain. */
  lemma JsonKindsMean(line: string, i: nat)
    requires line != "" && i < |JsonTokens(line)|
    ensures Means(line, |Text(JsonTokens(line)[..i])|, JsonTokens(line)[i])
  {
    hide Means, JsonFrom;
    FromMeans(line, 0, i);
  }

  /** Body lines are tokenised as JSON for that content type only. */
  lemma BodyKinds(line: string, c: Content)
    ensures BodyTokens(line, Json) == JsonTokens(line)
    ensures c != Json ==> BodyTokens(line, c) == [Token(line, Plain)]
  {
  }

  /** The content type is named by what occurs in the line, JSON first. */
  lemma NamedMeans(line: string)
    ensures Named(line) == Json <==> exists i: nat :: At(ToLower(line), "json", i)
    ensures Named(line) == Html <==>
      (exists i: nat :: At(ToLower(line), "html", i)) && !exists i: nat :: At(ToLower(line), "json", i)
  {
  }

  /** The header ends at line `k`: the first one after the start line with nothing but blanks. */
  ghost predicate HeaderEndsAt(lines: seq<string>, k: nat) {
    && 0 < k <= |lines| && (k < |lines| ==> AllSpace(lines[k]))
    && forall j :: 0 < j < k ==> !AllSpace(lines[j])
  }

  ghost predicate AllSpace(s: string) { forall i :: 0 <= i < |s| ==> IsSpace(s[i]) }

  lemma {:induction false} TrimLeftEmpty(s: string)
    ensures TrimLeft(s) == "" <==> AllSpace(s)
  {
    if s != "" && IsSpace(s[0]) {
      TrimLeftEmpty(s[1..]);
      assert forall i :: 0 < i < |s| ==> s[i] == s[1..][i - 1];
      assert forall i :: 0 <= i < |s[1..]| ==> s[1..][i] == s[i + 1];
    }
  }

  lemma BlankIsSpace(line: string)
    ensures IsBlank(line) <==> AllSpace(line)
  {
    hide IsSpace, AllSpace;
    TrimLeftEmpty(line);
    var t := TrimLeft(line);
    if t != "" { TrimRightKeeps(t); }
  }

  lemma {:induction false} SeparatorIs(lines: seq<string>, i: nat, k: nat)
    requires HeaderEndsAt(lines, k) && i <= k
    ensures Separator(lines, i) == k
    decreases k - i
  {
    hide IsBlank, AllSpace;
    if i < |lines| { BlankIsSpace(lines[i]); }
    if i < k { SeparatorIs(lines, i + 1, k); }
  }

  lemma {:induction false} ContentMeans(lines: seq<string>, i: nat, k: nat)
    requires Decides(lines, k) && i <= k
    ensures ContentFrom(lines, i) == Named(lines[k])
    decreases k - i
  {
    hide Begins, Named;
    if i < k { ContentMeans(lines, i + 1, k); }
  }

  /** What each logical line is shown with: the start line, header lines, nothing for the line that ends the header,
      and behind it JSON when the Content-Type says so, plain text otherwise. */
  lemma LinesAreShown(lines: seq<string>, k: nat, i: nat)
    requires HeaderEndsAt(lines, k) && i < |lines|
    ensures i < k ==> TokensOf(lines, i) == MetaTokens(lines[i], i == 0)
    ensures i == k ==> TokensOf(lines, i) == [Token("", Plain)]
    ensures forall d: nat :: i > k && Decides(lines, d) ==>
      TokensOf(lines, i) == if Named(lines[d]) == Json then JsonTokens(lines[i]) else [Token(lines[i], Plain)]
  {
    hide MetaTokens, JsonTokens, AllSpace, Named, ContentFrom, Begins;
    SeparatorIs(lines, 0, k);
    forall d: nat | Decides(lines, d) ensures ContentFrom(lines, 0) == Named(lines[d]) {
      ContentMeans(lines, 0, d);
    }
  }

  /** The chunks of the editor: header tokens up to line `k`, the first empty one after the start line, and behind it
      JSON when the Content-Type says so, plain text otherwise. Only the first chunk of all is a start line. */
  lemma ChunksAreShown(lines: seq<string>, k: nat, line: nat, off: nat, raw: string)
    requires 0 < k <= |lines| && (k < |lines| ==> lines[k] == "") && forall j :: 0 < j < k ==> lines[j] != ""
    requires line < |lines|
    ensures line <= k ==> ChunkTokens(lines, line, off, raw) == MetaTokens(raw, line == 0 && off == 0)
    ensures forall d: nat :: line > k && Decides(lines, d) ==>
      ChunkTokens(lines, line, off, raw) == if Named(lines[d]) == Json then JsonTokens(raw) else [Token(raw, Plain)]
  {
    hide MetaTokens, JsonTokens, Named, ContentFrom, Begins;
    assert InBody(lines, line) <==> line > k;
    forall d: nat | Decides(lines, d) ensures ContentFrom(lines, 0) == Named(lines[d]) {
      ContentMeans(lines, 0, d);
    }
  }

  // ---- header lines and start lines ----

  /** A header line is its name up to the first colon, the colon, and the rest; without a colon it is plain. */
  lemma HeaderKinds(name: string, value: string)
    requires ':' !in name
    ensures MetaTokens(name + ":" + value, false) ==
      [Token(name, HdrName), Token(":", HdrColon), Token(value, HdrValue)]
    ensures MetaTokens(name, false) == [Token(name, Plain)]
  {
    CutAfterFreePart(name, ":", value);
    var line := name + ":" + value;
    assert line[..|name|] == name && line[|name| + 1..] == value;
  }

  lemma {:induction false} TrimRightKeeps(t: string)
    requires t != "" && !IsSpace(t[0])
    ensures TrimRight(t) != ""
    decreases |t|
  {
    if IsSpace(t[|t| - 1]) {
      TrimRightKeeps(t[..|t| - 1]);
    }
  }

  lemma WordsAreNotBlank(line: string)
    requires Fields(line) != []
    ensures TrimSpace(line) != ""
  {
    hide WordLen;
    TrimRightKeeps(TrimLeft(line));
  }

  /** The kind of a status by its first digit. */
  ghost predicate StatusIs(code: string, k: Kind)
    requires code != ""
  {
    && (code[0] == '2' ==> k == Status2xx) && (code[0] == '3' ==> k == Status3xx)
    && (code[0] == '4' ==> k == Status4xx) && (code[0] == '5' ==> k == Status5xx)
    && (code[0] !in "2345" ==> k == Status2xx)
  }

  /** A response line: version, status, and the rest of its words. */
  lemma ResponseKinds(line: string)
    requires |Fields(line)| >= 2 && "HTTP/" <= Fields(line)[0]
    ensures var f, ts := Fields(line), StartTokens(line);
      && ts[0] == Token(f[0] + " ", Version) && ts[1].text == f[1] && StatusIs(f[1], ts[1].kind)
      && ts[2..] == if |f| == 2 then [] else [Token(" " + Join(f[2..], " "), Low)]
  {
    hide Fields, TrimSpace, Join;
    WordsAreNotBlank(line);
  }

  /** A request line: method, target, and the rest. */
  lemma RequestKinds(line: string)
    requires |Fields(line)| >= 3 && !("HTTP/" <= Fields(line)[0])
    ensures var f := Fields(line);
      StartTokens(line) ==
        [Token(f[0] + " ", Method), Token(f[1], Path), Token(" " + Join(f[2..], " "), Version)]
  {
    hide Fields, TrimSpace, Join;
    WordsAreNotBlank(line);
  }

  /** Any other start line is plain. */
  lemma OtherStartKinds(line: string)
    requires |Fields(line)| < 2 || (|Fields(line)| == 2 && !("HTTP/" <= Fields(line)[0]))
    ensures StartTokens(line) == [Token(line, Plain)]
  {
    hide Fields, TrimSpace, Join;
  }
}

/** What the raw texts that are prepared mean, whatever their line endings; which ports a Host line loses; and what
    the jar's line holds. */
module RawEndings {
  import opened Strings
  import opened Words
  import opened RawRequest
  import opened RawFraming
  import HostPort

  /** Header lines as typed: no break inside, none but the first empty. */
  ghost predicate Typed(lines: seq<string>) { Splittable(lines) && Free(lines, '\r') }

  // ---- both delimiters mean the same ----

  /** Every line feed of joined lines is followed by a character that is none. */
  lemma {:induction false} SingleFeeds(lines: seq<string>, i: nat)
    requires Splittable(lines) && i < |Join(lines, LF)| && Join(lines, LF)[i] == '\n'
    ensures i + 1 < |Join(lines, LF)| && Join(lines, LF)[i + 1] != '\n'
  {
    if |lines| > 1 {
      var p, rest := lines[0], Join(lines[1..], LF);
      var j := Join(lines, LF);
      assert j == p + "\n" + rest;
      assert rest[0] == lines[1][0];
      if i > |p| {
        assert rest[i - |p| - 1] == j[i];
        SingleFeeds(lines[1..], i - |p| - 1);
        assert j[i + 1] == rest[i - |p|];
      } else {
        assert i == |p| && j[i + 1] == rest[0];
      }
    }
  }

  lemma NoEmptyInside(lines: seq<string>, tail: string, i: nat)
    requires Splittable(lines) && i < |Join(lines, LF)|
    ensures !At(Join(lines, LF) + tail, "\n\n", i)
  {
    hide Join;
    var j := Join(lines, LF);
    var s := j + tail;
    if At(s, "\n\n", i) {
      assert s[i..i + 2][0] == s[i] && s[i..i + 2][1] == s[i + 1];
      SingleFeeds(lines, i);
      assert false;
    }
  }

  lemma LinesWithFeeds(lines: seq<string>)
    requires Typed(lines)
    ensures var j := Join(lines, LF); '\r' !in j && ReplaceAll(ReplaceAll(j, CRLF, LF), LF, CRLF) == Join(lines, CRLF)
  {
    hide Join, Split;
    JoinFree(lines, LF, '\r');
    NoCrlf(Join(lines, LF));
    ReplaceJoined(lines, LF, CRLF);
  }

  /** Lines that end with a line feed, an empty line and a body: the same message as with CRLF. */
  lemma FeedsAreMessage(lines: seq<string>, body: string)
    requires Typed(lines) && Find(Join(lines, LF) + "\n\n" + body, BLANK) < 0
    ensures NormalizeLineEndings(Join(lines, LF) + "\n\n" + body) == Message(lines, body)
  {
    hide Join, Find, ReplaceAll;
    var j := Join(lines, LF);
    var raw := j + "\n\n" + body;
    assert raw == j + ("\n\n" + body);
    forall i: nat | i < |j| ensures !At(raw, "\n\n", i) {
      NoEmptyInside(lines, "\n\n" + body, i);
    }
    assert raw[|j|..|j| + 2] == "\n\n";
    FindIs(raw, "\n\n", |j|);
    assert raw[..|j|] == j && raw[|j| + 2..] == body;
    LinesWithFeeds(lines);
  }

  /** Without an empty line everything is header, and the body is empty, with either line ending. */
  lemma NoEmptyLineIsHeader(lines: seq<string>)
    requires Typed(lines)
    ensures NormalizeLineEndings(Join(lines, LF)) == NormalizeLineEndings(Join(lines, CRLF)) == Message(lines, "")
  {
    hide Join, Find, ReplaceAll;
    var j, c := Join(lines, LF), Join(lines, CRLF);
    forall i: nat ensures !At(j, "\n\n", i) {
      if i < |j| { NoEmptyInside(lines, "", i); assert j + "" == j; }
    }
    FindNone(j, "\n\n");
    LinesWithFeeds(lines);
    NoBlankWithoutCr(j);
    HeaderEnd(lines, "");
    forall i: nat ensures !At(c, BLANK, i) {
      BlankLater(c, BLANK, i);
    }
    FindNone(c, BLANK);
    forall i: nat ensures !At(c, "\n\n", i) {
      TwoFeeds(lines, i);
    }
    FindNone(c, "\n\n");
    ReplaceJoined(lines, CRLF, LF);
    ReplaceJoined(lines, LF, CRLF);
    assert c + BLANK + "" == Message(lines, "");
  }

  lemma NoBlankWithoutCr(s: string)
    requires '\r' !in s
    ensures Find(s, BLANK) < 0
  {
    forall i: nat ensures !At(s, BLANK, i) {
      if i + 4 <= |s| { assert s[i..i + 4][0] == s[i]; }
    }
    FindNone(s, BLANK);
  }

  lemma BlankLater(c: string, tail: string, i: nat)
    requires Find(c + tail + "", BLANK) == |c|
    ensures !At(c, BLANK, i)
  {
    var s := c + tail + "";
    if At(c, BLANK, i) {
      assert s[i..i + 4] == c[i..i + 4];
      assert At(s, BLANK, i);
      assert false;
    }
  }

  /** Lines joined with CRLF: a line feed follows a carriage return, so no two stand together. */
  lemma {:induction false} TwoFeeds(lines: seq<string>, i: nat)
    requires Splittable(lines)
    ensures !At(Join(lines, CRLF), "\n\n", i)
  {
    var c := Join(lines, CRLF);
    if |lines| == 1 {
      if i + 2 <= |c| { assert c[i..i + 2][0] == c[i]; }
    } else {
      var p, rest := lines[0], Join(lines[1..], CRLF);
      assert c == p + CRLF + rest;
      if i + 2 <= |c| {
        assert c[i..i + 2][0] == c[i] && c[i..i + 2][1] == c[i + 1];
        if i >= |p| + 2 {
          TwoFeeds(lines[1..], i - |p| - 2);
          assert c[i..i + 2] == rest[i - |p| - 2..i - |p|];
        } else if i == |p| + 1 {
          FirstOfRest(lines[1..]);
          assert c[i + 1] == rest[0];
        }
      }
    }
  }

  lemma FirstOfRest(lines: seq<string>)
    requires lines != [] && lines[0] != ""
    ensures Join(lines, CRLF) != "" && Join(lines, CRLF)[0] == lines[0][0]
  {
  }

  // ---- what is sent for a text as typed ----

  /** What is sent is one message: header lines that end at the first empty line, and behind it just that body, with
      its length. */
  ghost predicate SentWith(raw: string, jar: seq<(string, string)>, lines: seq<string>, body: string)
    requires lines != []
  {
    var out := Headers(WithRequestLine(lines), jar, body);
    && Prepare(raw, jar) == Join(out, CRLF) + "\r\n\r\n" + body
    && Find(Prepare(raw, jar), "\r\n\r\n") == |Join(out, CRLF)| && Split(Join(out, CRLF), CRLF) == out
    && Only(out, ContentLength) == if body == "" then [] else ["Content-Length: " + Dec(|body|)]
  }

  lemma PreparedMessage(raw: string, jar: seq<(string, string)>, lines: seq<string>, body: string)
    requires Splittable(lines) && JarOk(jar) && NormalizeLineEndings(raw) == Message(lines, body)
    ensures SentWith(raw, jar, lines, body)
  {
    hide Headers, Only, Dec, Find, Join, Split, NewRequestLine, NormalizeLineEndings, HostLines;
    MessageSplits(lines, body);
    RequestLineOfMessage(lines, body);
    var src := WithRequestLine(lines);
    MessageSplits(src, body);
    HeaderEnd(src, body);
    var out := Headers(src, jar, body);
    HeadersSplittable(src, jar, body);
    HeaderEnd(out, body);
    MessageSplits(out, body);
    HeadersByKind(src, jar, body, ContentLength);
  }

  lemma TypedIsSent(lines: seq<string>, body: string, jar: seq<(string, string)>)
    requires Typed(lines) && JarOk(jar)
    ensures SentWith(Join(lines, CRLF) + "\r\n\r\n" + body, jar, lines, body)
    ensures Find(Join(lines, LF) + "\n\n" + body, BLANK) < 0 ==>
      SentWith(Join(lines, LF) + "\n\n" + body, jar, lines, body)
    ensures SentWith(Join(lines, LF), jar, lines, "") && SentWith(Join(lines, CRLF), jar, lines, "")
  {
    hide SentWith, Join, Find, NormalizeLineEndings;
    NormaliseMessage(lines, body);
    PreparedMessage(Message(lines, body), jar, lines, body);
    if Find(Join(lines, LF) + "\n\n" + body, BLANK) < 0 {
      FeedsAreMessage(lines, body);
      PreparedMessage(Join(lines, LF) + "\n\n" + body, jar, lines, body);
    }
    NoEmptyLineIsHeader(lines);
    PreparedMessage(Join(lines, LF), jar, lines, "");
    PreparedMessage(Join(lines, CRLF), jar, lines, "");
  }

  // ---- the Host line ----

  /** The value of a Host line: a host, bracketed or without a colon, and a port that goes. */
  predicate Loses(v: string, h: string, p: string) {
    (p == "80" || p == "443") && HostPort.NoBrackets(h) && ((':' !in h && v == h + ":" + p) || v == "[" + h + "]:" + p)
  }

  /** Such a line is left with its host. */
  lemma DefaultPortGoes(line: string, h: string, p: string)
    requires |line| >= 5 && Loses(TrimSpace(line[5..]), h, p)
    ensures RewriteHost(line) == "Host: " + h
  {
    hide HostPort.SplitHostPort, TrimSpace;
    var v := TrimSpace(line[5..]);
    assert ':' !in p && HostPort.NoBrackets(p);
    if v == "[" + h + "]:" + p {
      HostPort.BracketedSplits(h, p);
    } else {
      HostPort.BareSplits(h, p);
    }
  }

  /** Any other, with another port or none, is kept as it is. */
  lemma OtherPortStays(line: string)
    requires |line| >= 5 && forall h, p :: !Loses(TrimSpace(line[5..]), h, p)
    ensures RewriteHost(line) == line
  {
    hide TrimSpace;
    var v := TrimSpace(line[5..]);
    if DefaultPort(HostPort.SplitHostPort(v)) {
      DefaultForm(v);
    }
  }

  lemma DefaultForm(v: string)
    requires DefaultPort(HostPort.SplitHostPort(v))
    ensures var s := HostPort.SplitHostPort(v); Loses(v, s.host, s.port)
  {
    HostPort.SplitBare(v);
    SplitForm(v);
  }

  lemma SplitForm(v: string)
    requires HostPort.SplitHostPort(v).HostPort?
    ensures var s := HostPort.SplitHostPort(v); v == s.host + ":" + s.port || v == "[" + s.host + "]:" + s.port
    ensures var s := HostPort.SplitHostPort(v); v[0] == '[' <==> v == "[" + s.host + "]:" + s.port
  {
  }

  // ---- the jar's line ----

  /** The jar's line names every entry, in order. */
  lemma CookieLineHolds(jar: seq<(string, string)>)
    requires jar != [] && forall i :: 0 <= i < |jar| ==> ' ' !in jar[i].0 && ' ' !in jar[i].1
    ensures var line := CookieLine(jar);
      && |line| >= 8 && line[..8] == "Cookie: " && |Split(line[8..], "; ")| == |jar|
      && forall i :: 0 <= i < |jar| ==> Split(line[8..], "; ")[i] == jar[i].0 + "=" + jar[i].1
  {
    hide Split, Join;
    var pairs := seq(|jar|, i requires 0 <= i < |jar| => jar[i].0 + "=" + jar[i].1);
    assert CookieLine(jar)[8..] == Join(pairs, "; ");
    SplitJoin(pairs, "; ");
  }
}

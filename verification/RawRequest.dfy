/** Preparing a raw request for the wire: line endings, request line, headers, framing.
    Strings are byte strings; letter case and blanks are those of ASCII. */
module RawRequest {
  import opened Strings
  import opened Words
  import opened Lists
  import HostPort

  // ---- operations ----

  datatype Parts = Parts(header: string, body: string)

  function SplitRaw(raw: string): Parts {
    var i := Find(raw, BLANK);
    if i >= 0 then Parts(raw[..i], raw[i + 4..])
    else
      var j := Find(raw, "\n\n");
      if j >= 0 then Parts(raw[..j], raw[j + 2..]) else Parts(raw, "")
  }

  function NormalizeLineEndings(raw: string): string {
    var p := SplitRaw(raw);
    ReplaceAll(ReplaceAll(p.header, CRLF, LF), LF, CRLF) + BLANK + p.body
  }

  function NewRequestLine(first: string): string {
    var parts := Fields(first);
    if |parts| < 2 then first else parts[0] + " " + parts[1] + " HTTP/1.1"
  }

  function RewriteRequestLine(raw: string): string {
    var i := Find(raw, CRLF);
    if i < 0 then raw else NewRequestLine(raw[..i]) + raw[i..]
  }

  datatype Kind = Cookie | AcceptEncoding | ContentLength | TransferEncoding | Connection | Host | Other

  const CLOSE := "Connection: close"

  function Prefix(k: Kind): string {
    match k
    case Cookie => "cookie:"
    case AcceptEncoding => "accept-encoding:"
    case ContentLength => "content-length:"
    case TransferEncoding => "transfer-encoding:"
    case Connection => "connection:"
    case Host => "host:"
    case Other => ""
  }

  /** The switch of rewriteHeaders. */
  function KindOf(line: string): Kind {
    if Begins(line, "cookie:") then Cookie
    else if Begins(line, "accept-encoding:") then AcceptEncoding
    else if Begins(line, "content-length:") then ContentLength
    else if Begins(line, "transfer-encoding:") then TransferEncoding
    else if Begins(line, "connection:") then Connection
    else if Begins(line, "host:") then Host
    else Other
  }

  predicate DefaultPort(s: HostPort.Split) {
    s.HostPort? && (s.port == "443" || s.port == "80")
  }

  function HostOf(line: string): HostPort.Split
    requires |line| >= 5
  {
    HostPort.SplitHostPort(TrimSpace(line[5..]))
  }

  function RewriteHost(line: string): string
    requires |line| >= 5
  {
    if DefaultPort(HostOf(line)) then "Host: " + HostOf(line).host else line
  }

  /** What becomes of one line: kept, replaced or dropped. */
  function RewriteLine(line: string, jarEmpty: bool): (r: seq<string>)
    ensures |r| <= 1
  {
    match KindOf(line)
    case Cookie => if jarEmpty then [line] else []
    case AcceptEncoding => []
    case ContentLength => []
    case TransferEncoding => []
    case Connection => [CLOSE]
    case Host => assert Begins(line, "host:"); [RewriteHost(line)]
    case Other => [line]
  }

  function RewriteLines(lines: seq<string>, jarEmpty: bool): seq<string> {
    if lines == [] then [] else RewriteLine(lines[0], jarEmpty) + RewriteLines(lines[1..], jarEmpty)
  }

  /** The lines of one kind, in order. */
  function Only(lines: seq<string>, k: Kind): seq<string> {
    if lines == [] then [] else (if KindOf(lines[0]) == k then [lines[0]] else []) + Only(lines[1..], k)
  }

  /** The jar's entries in the order its iteration gives them. */
  function CookieLine(jar: seq<(string, string)>): string {
    "Cookie: " + Join(seq(|jar|, i requires 0 <= i < |jar| => jar[i].0 + "=" + jar[i].1), "; ")
  }

  function LengthLine(body: string): string {
    "Content-Length: " + Dec(|body|)
  }

  function Headers(lines: seq<string>, jar: seq<(string, string)>, body: string): seq<string> {
    RewriteLines(lines, jar == [])
    + (if Only(lines, Connection) != [] then [] else [CLOSE])
    + (if jar != [] then [CookieLine(jar)] else [])
    + (if body != "" then [LengthLine(body)] else [])
  }

  function Message(lines: seq<string>, body: string): string {
    Join(lines, CRLF) + BLANK + body
  }

  function RewriteHeaders(raw: string, jar: seq<(string, string)>): string {
    var i := Find(raw, BLANK);
    var header, body := if i >= 0 then raw[..i] else raw, if i >= 0 then raw[i + 4..] else "";
    Message(Headers(Split(header, CRLF), jar, body), body)
  }

  /** What SendRaw writes to the connection. */
  function Prepare(raw: string, jar: seq<(string, string)>): string {
    RewriteHeaders(RewriteRequestLine(NormalizeLineEndings(raw)), jar)
  }

  /** rewriteHeaders with its loops. */
  method RewriteHeadersLoop(raw: string, jar: seq<(string, string)>) returns (r: string)
    ensures r == RewriteHeaders(raw, jar)
  {
    hide Find, Split, Only, RewriteLines, Join, CookieLine;
    var i := Find(raw, BLANK);
    var headerSection, body := raw, "";
    if i >= 0 {
      headerSection, body := raw[..i], raw[i + 4..];
    }
    var lines := Split(headerSection, CRLF);
    var out, connectionSeen := RewriteLoop(lines, jar == []);
    if !connectionSeen {
      out := out + [CLOSE];
    }
    if |jar| > 0 {
      var cookies := JarLoop(jar);
      out := out + [cookies];
    }
    if |body| > 0 {
      out := out + ["Content-Length: " + Dec(|body|)];
    }
    assert out == Headers(lines, jar, body);
    r := Join(out, CRLF) + BLANK + body;
  }

  method JarLoop(jar: seq<(string, string)>) returns (line: string)
    ensures line == CookieLine(jar)
  {
    hide Join;
    var cookies: seq<string> := [];
    for j := 0 to |jar|
      invariant cookies == seq(j, i requires 0 <= i < j => jar[i].0 + "=" + jar[i].1)
    {
      cookies := cookies + [jar[j].0 + "=" + jar[j].1];
    }
    line := "Cookie: " + Join(cookies, "; ");
  }

  method RewriteLoop(lines: seq<string>, jarEmpty: bool) returns (out: seq<string>, connectionSeen: bool)
    ensures out == RewriteLines(lines, jarEmpty)
    ensures connectionSeen <==> Only(lines, Connection) != []
  {
    hide RewriteLine, KindOf;
    out, connectionSeen := [], false;
    assert lines[0..] == lines;
    for n := 0 to |lines|
      invariant out + RewriteLines(lines[n..], jarEmpty) == RewriteLines(lines, jarEmpty)
      invariant connectionSeen || Only(lines[n..], Connection) != [] <==> Only(lines, Connection) != []
    {
      assert lines[n..][1..] == lines[n + 1..];
      Regroup(out, RewriteLine(lines[n], jarEmpty), RewriteLines(lines[n + 1..], jarEmpty));
      var seen;
      out, seen := RewriteOne(out, lines[n], jarEmpty);
      if seen {
        connectionSeen := true;
      }
    }
  }

  /** One turn of the loop. */
  method RewriteOne(out: seq<string>, given: string, jarEmpty: bool) returns (r: seq<string>, connectionSeen: bool)
    ensures r == out + RewriteLine(given, jarEmpty)
    ensures connectionSeen <==> KindOf(given) == Connection
  {
    r, connectionSeen := out, false;
    var line := given;
    if Begins(line, "cookie:") {
      if jarEmpty {
        r := r + [line];
      }
    } else if Begins(line, "accept-encoding:") {
    } else if Begins(line, "content-length:") {
    } else if Begins(line, "transfer-encoding:") {
    } else if Begins(line, "connection:") {
      r := r + [CLOSE];
      connectionSeen := true;
    } else if Begins(line, "host:") {
      var hp := HostPort.SplitHostPort(TrimSpace(line[5..]));
      if hp.HostPort? && (hp.port == "443" || hp.port == "80") {
        line := "Host: " + hp.host;
      }
      r := r + [line];
    } else {
      r := r + [line];
    }
  }

  // ---- where the header ends ----

  /** Header lines that come back when the message is split: no line feed inside, none but the first empty. */
  ghost predicate Splittable(lines: seq<string>) {
    lines != [] && Free(lines, '\n') && forall i :: 0 < i < |lines| ==> lines[i] != ""
  }

  lemma NoBlankInside(p: string, rest: string, i: nat)
    requires '\n' !in p && CRLF <= rest && i < |p|
    ensures !At(p + rest, BLANK, i)
  {
    var s := p + rest;
    if i + 4 <= |s| {
      assert s[i..i + 4][1] == s[i + 1];
      assert i + 1 < |p| ==> s[i + 1] == p[i + 1];
      assert i + 1 == |p| ==> s[i + 1] == rest[0] == CRLF[0];
    }
  }

  /** A second line break directly after the first needs an empty line between them. */
  lemma NoBlankAtBreak(tail: string, i: nat)
    requires i < 2 && |tail| >= 2 && tail[0] != '\n' && tail[1] != '\n'
    ensures !At(CRLF + tail, BLANK, i)
  {
    var s := CRLF + tail;
    if i + 4 <= |s| {
      assert s[i..i + 4][0] == s[i] && s[i..i + 4][3] == s[i + 3];
      assert s[3] == tail[1];
    }
  }

  lemma {:induction false} HeaderEnd(lines: seq<string>, body: string)
    requires Splittable(lines)
    ensures Find(Message(lines, body), BLANK) == |Join(lines, CRLF)|
  {
    var s, p := Message(lines, body), lines[0];
    var h := |Join(lines, CRLF)|;
    assert s[h..h + 4] == BLANK;
    var rest := if |lines| == 1 then BLANK + body else CRLF + Message(lines[1..], body);
    assert s == p + rest;
    forall i: nat | i < h ensures !At(s, BLANK, i) {
      if i < |p| {
        NoBlankInside(p, rest, i);
      } else if |lines| > 1 {
        HeaderEnd(lines[1..], body);
        LaterLine(p, lines[1..], body, i);
      }
    }
    FindIs(s, BLANK, h);
  }

  lemma FarSlice(p: string, tail: string, i: nat)
    requires |p| + 2 <= i && i + 4 <= |p| + 2 + |tail|
    ensures (p + (CRLF + tail))[i..i + 4] == tail[i - |p| - 2..i - |p| + 2]
  {
    var s, j := p + (CRLF + tail), i - |p| - 2;
    assert s[|p| + 2..] == tail;
    assert s[i..i + 4] == s[|p| + 2..][j..j + 4];
  }

  lemma LaterLine(p: string, more: seq<string>, body: string, i: nat)
    requires Splittable(more) && more[0] != "" && |p| <= i < |p| + 2 + |Join(more, CRLF)|
    requires Find(Message(more, body), BLANK) == |Join(more, CRLF)|
    ensures !At(p + (CRLF + Message(more, body)), BLANK, i)
  {
    var tail := Message(more, body);
    var s := p + (CRLF + tail);
    if i + 4 <= |s| {
      if i < |p| + 2 {
        FirstTwo(more, body);
        NoBlankAtBreak(tail, i - |p|);
        assert s[i..i + 4] == (CRLF + tail)[i - |p|..i - |p| + 4];
      } else {
        assert !At(tail, BLANK, i - |p| - 2);
        FarSlice(p, tail, i);
      }
    }
  }

  lemma FirstTwo(more: seq<string>, body: string)
    requires Splittable(more) && more[0] != ""
    ensures var t := Message(more, body); |t| >= 2 && t[0] != '\n' && t[1] != '\n'
  {
    var t, l := Message(more, body), more[0];
    var rest := if |more| == 1 then BLANK + body else CRLF + Message(more[1..], body);
    assert t == l + rest;
    assert rest[0] == CRLF[0];
  }

  /** A message splits into exactly the lines and the body it was built from. */
  lemma MessageSplits(lines: seq<string>, body: string)
    requires Splittable(lines)
    ensures SplitRaw(Message(lines, body)) == Parts(Join(lines, CRLF), body)
    ensures Find(Message(lines, body), BLANK) >= 0
    ensures Split(Join(lines, CRLF), CRLF) == lines
  {
    HeaderEnd(lines, body);
    SplitJoin(lines, CRLF);
  }

  lemma MessageInjective(a: seq<string>, b: seq<string>, body: string)
    requires Splittable(a) && Splittable(b)
    ensures Message(a, body) == Message(b, body) <==> a == b
  {
    MessageSplits(a, body);
    MessageSplits(b, body);
  }

  // ---- normalised text ----

  /** The header lines and the body of the normalised text. */
  function NormLines(raw: string): seq<string> {
    Split(SplitRaw(NormalizeLineEndings(raw)).header, CRLF)
  }

  function NormBody(raw: string): string {
    SplitRaw(NormalizeLineEndings(raw)).body
  }

  /** The header's lines, before the first empty one is looked for. */
  function AllLines(raw: string): seq<string> {
    Split(ReplaceAll(SplitRaw(raw).header, CRLF, LF), LF)
  }

  function FirstEmpty(lines: seq<string>, from: nat): (k: nat)
    requires from <= |lines|
    ensures from <= k <= |lines| && (k < |lines| ==> lines[k] == "")
    ensures forall i :: from <= i < k ==> lines[i] != ""
    decreases |lines| - from
  {
    if from == |lines| || lines[from] == "" then from else FirstEmpty(lines, from + 1)
  }

  lemma {:induction false} JoinCut(lines: seq<string>, k: nat)
    requires 0 < k < |lines|
    ensures Join(lines, CRLF) == Join(lines[..k], CRLF) + CRLF + Join(lines[k..], CRLF)
  {
    if k == 1 {
      assert lines[..1] == [lines[0]];
    } else {
      JoinCut(lines[1..], k - 1);
      assert lines[1..][..k - 1] == lines[..k][1..] && lines[1..][k - 1..] == lines[k..];
      assert lines[..k][0] == lines[0];
      var a, b, c := lines[0], Join(lines[..k][1..], CRLF), Join(lines[k..], CRLF);
      assert a + CRLF + (b + CRLF + c) == (a + CRLF + b) + CRLF + c;
    }
  }

  /** What the body of the normalised text is when the header has an empty line inside. */
  function Moved(lines: seq<string>, k: nat, body: string): string
    requires k <= |lines|
  {
    if k == |lines| then body else if k + 1 == |lines| then CRLF + body else Message(lines[k + 1..], body)
  }

  lemma CutMessage(lines: seq<string>, k: nat, body: string)
    requires 0 < k <= |lines| && (k < |lines| ==> lines[k] == "")
    ensures Message(lines, body) == Message(lines[..k], Moved(lines, k, body))
  {
    if k == |lines| {
      assert lines[..k] == lines;
    } else {
      JoinCut(lines, k);
      var a := Join(lines[..k], CRLF);
      if k + 1 == |lines| {
        assert lines[k..] == [""];
        assert a + CRLF + "" + BLANK + body == a + BLANK + (CRLF + body);
      } else {
        var m := Message(lines[k + 1..], body);
        assert lines[k..][1..] == lines[k + 1..];
        assert a + CRLF + ("" + CRLF + Join(lines[k + 1..], CRLF)) + BLANK + body == a + BLANK + m;
      }
    }
  }

  /** The normalised text is one message: lines without line feeds, only the first of which may be empty, and a body. */
  lemma NormalisedIsMessage(raw: string)
    ensures Splittable(NormLines(raw)) && NormalizeLineEndings(raw) == Message(NormLines(raw), NormBody(raw))
    ensures var k := FirstEmpty(AllLines(raw), 1);
      NormLines(raw) == AllLines(raw)[..k] && NormBody(raw) == Moved(AllLines(raw), k, SplitRaw(raw).body)
  {
    var lines, body := AllLines(raw), SplitRaw(raw).body;
    SplitFree(ReplaceAll(SplitRaw(raw).header, CRLF, LF), LF);
    var k := FirstEmpty(lines, 1);
    assert NormalizeLineEndings(raw) == Message(lines, body);
    CutMessage(lines, k, body);
    MessageSplits(lines[..k], Moved(lines, k, body));
  }

  /** Normalising leaves the body alone exactly when the header has no empty line inside. */
  lemma NormaliseKeepsBodyIff(raw: string)
    ensures NormBody(raw) == SplitRaw(raw).body <==> forall i :: 0 < i < |AllLines(raw)| ==> AllLines(raw)[i] != ""
  {
    NormalisedIsMessage(raw);
    var lines := AllLines(raw);
    var k := FirstEmpty(lines, 1);
    assert k < |lines| ==> |Moved(lines, k, SplitRaw(raw).body)| > |SplitRaw(raw).body|;
  }

  /** A header with an empty line inside: delimited by line feeds, with CRLFCRLF only further on. The normalised
      text ends its header at that line, so what followed it moves into the body. */
  lemma BodyMovesExample() returns (raw: string)
    ensures raw == "a\n\nb\r\n\r\nc" && SplitRaw(raw) == Parts("a\n\nb", "c")
    ensures AllLines(raw) == ["a", "", "b"]
    ensures NormLines(raw) == ["a"] && NormBody(raw) == "b\r\n\r\nc"
  {
    hide Find, Split, Join, SplitRaw, Splittable;
    raw := "a\n\nb\r\n\r\nc";
    BlankAtFour(raw);
    EmptyInside(raw);
    NormalisedIsMessage(raw);
    MovedAfterOne(["a", "", "b"], "c");
  }

  lemma EmptyInside(raw: string)
    requires SplitRaw(raw).header == "a\n\nb"
    ensures AllLines(raw) == ["a", "", "b"]
  {
    var lines := ["a", "", "b"];
    assert lines[1..] == ["", "b"] && lines[1..][1..] == ["b"] && Join(["b"], LF) == "b";
    assert Join(["", "b"], LF) == "" + LF + "b" == "\nb";
    assert Join(lines, LF) == "a" + LF + "\nb" == "a\n\nb";
    NoCrlf("a\n\nb");
    SplitJoin(lines, LF);
  }

  lemma MovedAfterOne(lines: seq<string>, body: string)
    requires |lines| == 3 && lines[1] == ""
    ensures FirstEmpty(lines, 1) == 1 && lines[..1] == [lines[0]]
    ensures Moved(lines, 1, body) == lines[2] + "\r\n\r\n" + body
  {
    assert lines[2..] == [lines[2]] && Join([lines[2]], CRLF) == lines[2];
  }

  lemma BlankAtFour(raw: string)
    requires raw == "a\n\nb\r\n\r\nc"
    ensures SplitRaw(raw) == Parts("a\n\nb", "c")
  {
    assert raw[4..8] == BLANK;
    assert raw[..4] == "a\n\nb" && raw[8..] == "c";
    forall i: nat | i < 4 ensures !At(raw, BLANK, i) {
      assert raw[i..i + 4][0] == raw[i];
    }
    FindIs(raw, BLANK, 4);
  }

  /** Messages are left as they are. */
  lemma NormaliseMessage(lines: seq<string>, body: string)
    requires Splittable(lines)
    ensures NormalizeLineEndings(Message(lines, body)) == Message(lines, body)
  {
    MessageSplits(lines, body);
    ReplaceJoined(lines, CRLF, LF);
    ReplaceJoined(lines, LF, CRLF);
  }

  /** The normalised lines of a text that is a message already. */
  lemma LinesOfMessage(lines: seq<string>, body: string)
    requires Splittable(lines)
    ensures NormLines(Message(lines, body)) == lines && NormBody(Message(lines, body)) == body
  {
    NormaliseMessage(lines, body);
    MessageSplits(lines, body);
  }

  lemma NormaliseIdempotent(raw: string)
    ensures NormalizeLineEndings(NormalizeLineEndings(raw)) == NormalizeLineEndings(raw)
  {
    NormalisedIsMessage(raw);
    NormaliseMessage(NormLines(raw), NormBody(raw));
  }

  // ---- the request line ----

  function WithRequestLine(lines: seq<string>): seq<string>
    requires lines != []
  {
    [NewRequestLine(lines[0])] + lines[1..]
  }

  lemma RequestLineOfMessage(lines: seq<string>, body: string)
    requires Splittable(lines)
    ensures RewriteRequestLine(Message(lines, body)) == Message(WithRequestLine(lines), body)
    ensures Splittable(WithRequestLine(lines))
  {
    hide NewRequestLine, Find, Join;
    var first, n := lines[0], WithRequestLine(lines);
    var rest := AfterFirst(lines, body);
    FirstAndRest(lines, body);
    FirstAndRest(n, body);
    NewLineFree(first);
    CutAfterFreePart(first, CRLF, rest);
    var s := first + CRLF + rest;
    assert s[..|first|] == first && s[|first|..] == CRLF + rest;
    assert NewRequestLine(first) + (CRLF + rest) == NewRequestLine(first) + CRLF + rest;
    assert n[1..] == lines[1..];
  }

  /** What follows the first line and its line break. */
  function AfterFirst(lines: seq<string>, body: string): string
    requires lines != []
  {
    if |lines| == 1 then CRLF + body else Message(lines[1..], body)
  }

  lemma FirstAndRest(lines: seq<string>, body: string)
    requires lines != []
    ensures Message(lines, body) == lines[0] + CRLF + AfterFirst(lines, body)
  {
    if |lines| == 1 {
      assert Message(lines, body) == lines[0] + (CRLF + CRLF) + body;
    }
  }

  lemma NewLineFree(first: string)
    requires '\n' !in first
    ensures '\n' !in NewRequestLine(first)
  {
    var f := Fields(first);
    if |f| >= 2 {
      assert NoSpace(f[0]) && NoSpace(f[1]);
    }
  }

  /** Method and target are kept, and the version is 1.1, whatever came behind them and between them. */
  lemma RequestLineFields(first: string)
    requires |Fields(first)| >= 2
    ensures Fields(NewRequestLine(first)) == [Fields(first)[0], Fields(first)[1], "HTTP/1.1"]
  {
    hide Fields;
    var f, v := Fields(first), "HTTP/1.1";
    assert NoSpace(v);
    ThreeFields(f[0], f[1], v);
    assert f[0] + " " + f[1] + " HTTP/1.1" == f[0] + " " + f[1] + " " + v;
  }

  lemma NewRequestLineIdempotent(first: string)
    ensures NewRequestLine(NewRequestLine(first)) == NewRequestLine(first)
  {
    hide Fields;
    if |Fields(first)| >= 2 {
      RequestLineFields(first);
    }
  }
}
